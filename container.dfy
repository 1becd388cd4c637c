/**
 * CDataCacheContainer: the table itself. Rows are filed in a map under
 * their primary key (or under an identity counter when the schema has no
 * primary key), secondary indexes are kept by column name, and every query
 * goes through a filter clause and comes back as a row set sharing the
 * container's row objects.
 *
 * The map is modelled as an insertion-ordered map: the keys in the order
 * they were first put (a re-put keeps the key's place) plus the key -> row
 * store. That is the iteration order of the LinkedHashMap the
 * insertion-ordered container uses; a HashMap's order is unspecified, and
 * any fixed order is one it may have.
 */
module Container {
  import opened Base
  import opened MetaData
  import opened DataRow
  import opened Comparator
  import opened RowSort
  import opened Filters
  import opened CacheIndex
  import opened FilterClause
  import opened RowSets
  import opened JoinClause

  // ---------------------------------------------------------------------
  // The row map, on values.

  /** The keys in map order, the key -> row store and the identity counter. */
  datatype Table = Table(keys: seq<Value>, store: map<Value, Row>, identity: int)

  /** Every key listed once, and the listed keys are exactly the stored ones. */
  ghost predicate Ordered(t: Table) {
    Distinct(t.keys) && (forall k :: k in t.store <==> k in t.keys)
  }

  /** A well-formed map whose counter is a Java int. */
  ghost predicate WellFormedTable(t: Table) {
    Ordered(t) && MinInt <= t.identity <= MaxInt
  }

  predicate Distinct(s: seq<Value>) {
    forall i, j :: 0 <= i < j < |s| ==> s[i] != s[j]
  }

  /** The stored rows in map order (values().toArray()). */
  function ValuesOf(t: Table): (r: seq<Row>)
    requires forall i :: 0 <= i < |t.keys| ==> t.keys[i] in t.store
    ensures |r| == |t.keys| && forall i :: 0 <= i < |t.keys| ==> r[i] == t.store[t.keys[i]]
  {
    seq(|t.keys|, i requires 0 <= i < |t.keys| => t.store[t.keys[i]])
  }

  /** Map.put: a new key goes to the end, an existing key keeps its place and gets the new row. */
  function Put(t: Table, k: Value, row: Row): Table {
    Table(if k in t.store then t.keys else t.keys + [k], t.store[k := row], t.identity)
  }

  /** The puts of a batch, rows[i] under ks[i], in order. */
  function PutAll(t: Table, ks: seq<Value>, rows: seq<Row>): Table
    requires |ks| == |rows|
  {
    if ks == [] then t else Put(PutAll(t, ks[..|ks| - 1], rows[..|rows| - 1]), ks[|ks| - 1], rows[|rows| - 1])
  }

  /** One more put extends the fold. */
  lemma PutStep(t: Table, ks: seq<Value>, rows: seq<Row>, j: nat)
    requires |ks| == |rows| && j < |ks|
    ensures PutAll(t, ks[..j + 1], rows[..j + 1]) == Put(PutAll(t, ks[..j], rows[..j]), ks[j], rows[j])
  {
    assert ks[..j + 1][..j] == ks[..j] && rows[..j + 1][..j] == rows[..j];
  }

  /** Map.remove of each key in turn: the key leaves the store and the key order. */
  function RemoveAllKeys(t: Table, ks: seq<Value>): Table {
    if ks == [] then t
    else
      var u := RemoveAllKeys(t, ks[..|ks| - 1]);
      var k := ks[|ks| - 1];
      Table(Without(u.keys, k), u.store - {k}, u.identity)
  }

  /** The key list with k taken out. */
  function Without(keys: seq<Value>, k: Value): (r: seq<Value>)
    ensures forall x :: x in r <==> x in keys && x != k
    ensures |r| <= |keys|
  {
    if keys == [] then [] else Without(keys[..|keys| - 1], k) + (if keys[|keys| - 1] == k then [] else [keys[|keys| - 1]])
  }

  /** The batch with its null references ruled out. */
  function NonNull(batch: seq<Row?>): (r: seq<Row>)
    requires forall i :: 0 <= i < |batch| ==> batch[i] != null
    ensures |r| == |batch| && forall i :: 0 <= i < |batch| ==> r[i] == batch[i]
  {
    seq(|batch|, i requires 0 <= i < |batch| => batch[i] as Row)
  }

  /** Rows of the schema's width whose key columns exist, so that every key derivation succeeds. */
  predicate Keyable(s: Schema, cells: seq<seq<Value>>) {
    (forall i :: 0 <= i < |cells| ==> |cells[i]| == |s.columnNames|) &&
    (s.primaryKeyColumns.Some? ==> forall p :: p in s.primaryKeyColumns.value ==> p in s.columnNames)
  }

  /** The identity counter after n increments of a Java int (identityPK++ wraps at 2^31 - 1). */
  function Bumped(identity: int, n: nat): int {
    if n == 0 then identity else Wrap32(Bumped(identity, n - 1) + 1)
  }

  /** The key of one row: the identity value given, or the row's primary key. */
  function KeyOf(s: Schema, cells: seq<Value>, identity: int, show: Value -> string): Value
    requires Keyable(s, [cells])
  {
    if s.primaryKeyColumns.None? then Int(identity)
    else
      assert KeyReadable(s, cells) by { assert [cells][0] == cells; }
      CreatePrimaryKeyOk(s, cells, show);
      CreatePrimaryKey(s, Some(cells), show).value
  }

  /**
   * The keys addData files a batch under: without a primary key the Java
   * int identity counter is incremented before each row (and wraps around
   * at 2^31 - 1); otherwise each row's primary key.
   */
  function BatchKeys(s: Schema, cells: seq<seq<Value>>, identity: int, show: Value -> string): (ks: seq<Value>)
    requires Keyable(s, cells)
    ensures |ks| == |cells|
  {
    seq(|cells|, i requires 0 <= i < |cells| => (assert Keyable(s, [cells[i]]); KeyOf(s, cells[i], Bumped(identity, i + 1), show)))
  }

  /** One key of a batch. */
  lemma KeyAt(s: Schema, cells: seq<seq<Value>>, identity: int, show: Value -> string, j: nat)
    requires Keyable(s, cells) && j < |cells|
    ensures Keyable(s, [cells[j]])
    ensures BatchKeys(s, cells, identity, show)[j] == KeyOf(s, cells[j], Bumped(identity, j + 1), show)
  {
  }

  /** The table after addData of rows whose cells are cells. */
  function Filed(t: Table, s: Schema, rows: seq<Row>, cells: seq<seq<Value>>, show: Value -> string): Table
    requires |cells| == |rows| && Keyable(s, cells)
  {
    var u := PutAll(t, BatchKeys(s, cells, t.identity, show), rows);
    Table(u.keys, u.store, if s.primaryKeyColumns.None? then Bumped(t.identity, |rows|) else t.identity)
  }

  // ---------------------------------------------------------------------
  // Properties of the row map.

  /** addData keeps the map well formed and the counter a Java int; old keys keep their places. */
  lemma FiledOrdered(t: Table, s: Schema, rows: seq<Row>, cells: seq<seq<Value>>, show: Value -> string)
    requires |cells| == |rows| && Keyable(s, cells) && Ordered(t)
    ensures var u := Filed(t, s, rows, cells, show);
      Ordered(u) && (MinInt <= t.identity <= MaxInt ==> MinInt <= u.identity <= MaxInt) &&
      (WellFormedTable(t) ==> WellFormedTable(u)) &&
      |t.keys| <= |u.keys| <= |t.keys| + |rows| && u.keys[..|t.keys|] == t.keys
  {
    PutAllOrdered(t, BatchKeys(s, cells, t.identity, show), rows);
  }

  /** Puts keep the map well formed; old keys keep their places and at most one key per row is added. */
  lemma {:induction false} PutAllOrdered(t: Table, ks: seq<Value>, rows: seq<Row>)
    requires |ks| == |rows| && Ordered(t)
    ensures var u := PutAll(t, ks, rows);
      Ordered(u) && |t.keys| <= |u.keys| <= |t.keys| + |ks| && u.keys[..|t.keys|] == t.keys && u.identity == t.identity
  {
    if ks != [] {
      var n := |ks| - 1;
      PutAllOrdered(t, ks[..n], rows[..n]);
      var u := PutAll(t, ks[..n], rows[..n]);
      var v := Put(u, ks[n], rows[n]);
      if ks[n] !in u.store {
        assert forall i :: 0 <= i < |u.keys| ==> u.keys[i] in u.store;
        assert v.keys[..|t.keys|] == u.keys[..|t.keys|];
      }
    }
  }

  /** A key is stored after the puts iff it was stored before or the batch has it. */
  lemma {:induction false} PutAllKeys(t: Table, ks: seq<Value>, rows: seq<Row>, k: Value)
    requires |ks| == |rows|
    ensures k in PutAll(t, ks, rows).store <==> k in t.store || k in ks
  {
    if ks != [] {
      var n := |ks| - 1;
      PutAllKeys(t, ks[..n], rows[..n], k);
      assert ks == ks[..n] + [ks[n]];
    }
  }

  /** A key the batch does not mention keeps its row. */
  lemma {:induction false} PutAllKeeps(t: Table, ks: seq<Value>, rows: seq<Row>, k: Value)
    requires |ks| == |rows| && k !in ks && k in t.store
    ensures k in PutAll(t, ks, rows).store && PutAll(t, ks, rows).store[k] == t.store[k]
  {
    if ks != [] {
      var n := |ks| - 1;
      assert ks == ks[..n] + [ks[n]];
      PutAllKeeps(t, ks[..n], rows[..n], k);
    }
  }

  /** Last write wins: the row under a key of the batch is the row of that key's last occurrence. */
  lemma {:induction false} PutAllLastWins(t: Table, ks: seq<Value>, rows: seq<Row>, j: nat)
    requires |ks| == |rows| && j < |ks|
    requires forall i :: j < i < |ks| ==> ks[i] != ks[j]
    ensures ks[j] in PutAll(t, ks, rows).store && PutAll(t, ks, rows).store[ks[j]] == rows[j]
  {
    var n := |ks| - 1;
    if j < n {
      assert ks[..n][j] == ks[j] && rows[..n][j] == rows[j];
      assert forall i :: j < i < n ==> ks[..n][i] == ks[i];
      PutAllLastWins(t, ks[..n], rows[..n], j);
    }
  }

  /** Wrapping to a Java int only depends on the value modulo 2^32. */
  lemma Wrap32Congruent(a: int, b: int)
    requires (a - b) % 0x1_0000_0000 == 0
    ensures Wrap32(a) == Wrap32(b)
  {
    var ra, rb := Wrap32(a), Wrap32(b);
    assert (ra - a) % 0x1_0000_0000 == 0 && (rb - b) % 0x1_0000_0000 == 0;
    assert (ra - rb) % 0x1_0000_0000 == 0;
  }

  /** Values less than 2^32 apart wrap to different Java ints. */
  lemma Wrap32Injective(x: int, y: int)
    requires 0 < y - x < 0x1_0000_0000
    ensures Wrap32(x) != Wrap32(y)
  {
    var a, b := Wrap32(x), Wrap32(y);
    var p, q := (a - x) / 0x1_0000_0000, (b - y) / 0x1_0000_0000;
    assert a - x == p * 0x1_0000_0000 && b - y == q * 0x1_0000_0000;
  }

  /** identityPK++ on a Java int: incrementing the wrapped value wraps the sum. */
  lemma Wrap32Step(x: int, n: int)
    ensures Wrap32(Wrap32(x + n) + 1) == Wrap32(x + n + 1)
  {
    Wrap32Congruent(Wrap32(x + n) + 1, x + n + 1);
  }

  /** From a Java int, n increments wrap the sum once. */
  lemma {:induction false} BumpedWraps(identity: int, n: nat)
    requires MinInt <= identity <= MaxInt
    ensures Bumped(identity, n) == Wrap32(identity + n)
  {
    if n > 0 {
      BumpedWraps(identity, n - 1);
      Wrap32Step(identity, n - 1);
    }
  }

  /** Fewer than 2^32 identity keys of one batch are pairwise different. */
  lemma IdentityKeysDistinct(s: Schema, cells: seq<seq<Value>>, identity: int, show: Value -> string)
    requires Keyable(s, cells) && s.primaryKeyColumns.None? && |cells| <= 0x1_0000_0000
    requires MinInt <= identity <= MaxInt
    ensures Distinct(BatchKeys(s, cells, identity, show))
  {
    var ks := BatchKeys(s, cells, identity, show);
    forall i, j | 0 <= i < j < |ks| ensures ks[i] != ks[j] {
      IdentityKeyAt(s, cells, identity, show, i);
      IdentityKeyAt(s, cells, identity, show, j);
      Wrap32Injective(identity + i + 1, identity + j + 1);
    }
  }

  /** Without a primary key, the j-th key of a batch is the identity advanced j + 1 times, wrapped. */
  lemma IdentityKeyAt(s: Schema, cells: seq<seq<Value>>, identity: int, show: Value -> string, j: nat)
    requires Keyable(s, cells) && s.primaryKeyColumns.None? && j < |cells|
    requires MinInt <= identity <= MaxInt
    ensures BatchKeys(s, cells, identity, show)[j] == Int(Wrap32(identity + j + 1))
  {
    KeyAt(s, cells, identity, show, j);
    BumpedWraps(identity, j + 1);
  }

  /** A list of distinct keys has as many elements as its set. */
  lemma {:induction false} DistinctCard(keys: seq<Value>)
    requires Distinct(keys)
    ensures |set k | k in keys| == |keys|
  {
    if keys != [] {
      var n := |keys| - 1;
      DistinctCard(keys[..n]);
      assert keys == keys[..n] + [keys[n]];
      assert (set k | k in keys) == (set k | k in keys[..n]) + {keys[n]};
      assert keys[n] !in keys[..n];
    }
  }

  /** A well-formed map has as many entries as listed keys. */
  lemma OrderedSize(t: Table)
    ensures Ordered(t) ==> |t.store| == |t.keys|
  {
    if Ordered(t) {
      DistinctCard(t.keys);
      assert t.store.Keys == set k | k in t.keys;
    }
  }

  /** Removal keeps the map well formed and takes out exactly the removed keys. */
  lemma {:induction false} RemoveAllKeysSpec(t: Table, ks: seq<Value>)
    requires Ordered(t)
    ensures var u := RemoveAllKeys(t, ks);
      Ordered(u) && u.identity == t.identity &&
      (forall k :: k in u.store <==> k in t.store && k !in ks) &&
      (forall k :: k in u.store ==> u.store[k] == t.store[k])
  {
    if ks != [] {
      var n := |ks| - 1;
      assert ks == ks[..n] + [ks[n]];
      RemoveAllKeysSpec(t, ks[..n]);
      RemoveAllKeysStep(t, ks[..n], ks[n]);
    }
  }

  /** The step of RemoveAllKeysSpec: one more key taken out. */
  lemma RemoveAllKeysStep(t: Table, ks: seq<Value>, x: Value)
    requires Ordered(t)
    requires var u := RemoveAllKeys(t, ks);
      Ordered(u) && u.identity == t.identity &&
      (forall k :: k in u.store <==> k in t.store && k !in ks) &&
      (forall k :: k in u.store ==> u.store[k] == t.store[k])
    ensures var v := RemoveAllKeys(t, ks + [x]);
      Ordered(v) && v.identity == t.identity &&
      (forall k :: k in v.store <==> k in t.store && k !in ks + [x]) &&
      (forall k :: k in v.store ==> v.store[k] == t.store[k])
  {
    var u := RemoveAllKeys(t, ks);
    assert (ks + [x])[..|ks|] == ks;
    assert RemoveAllKeys(t, ks + [x]) == Table(Without(u.keys, x), u.store - {x}, u.identity);
    WithoutDistinct(u.keys, x);
  }

  lemma {:induction false} WithoutDistinct(keys: seq<Value>, k: Value)
    requires Distinct(keys)
    ensures Distinct(Without(keys, k))
  {
    if keys != [] {
      var n := |keys| - 1;
      assert Distinct(keys[..n]);
      WithoutDistinct(keys[..n], k);
      if keys[n] != k {
        assert keys[n] !in keys[..n];
        DistinctAppend(Without(keys[..n], k), keys[n]);
      }
    }
  }

  lemma DistinctAppend(a: seq<Value>, x: Value)
    requires Distinct(a) && x !in a
    ensures Distinct(a + [x])
  {
  }

  // ---------------------------------------------------------------------
  // Queries, on values.

  /** The rows held in index buckets. */
  function IndexedRows(ix: map<string, Buckets>): set<Row> {
    set c, v, x | c in ix && v in ix[c] && x in ix[c][v] :: x
  }

  /** Every row the map and the indexes of a lookup can hand out. */
  function Reach(l: Lookup): set<Row> {
    l.store.Values + IndexedRows(l.indexes)
  }

  lemma SameRows(a: seq<Row>, b: seq<Row>)
    requires |a| == |b| && forall i :: 0 <= i < |a| ==> a[i] == b[i]
    ensures a == b
  {
  }

  /** The kind of a promoted primary-key filter, if any. */
  function PkKind(f: Filter?): Option<FilterKind> {
    if f == null then None else Some(f.kind)
  }

  /**
   * The rows match(rows) selects once the clause is planned: without any
   * filter left, all rows; otherwise the candidates (by primary key, by the
   * first recorded index, or all rows) that pass every remaining filter.
   * pool holds every row involved.
   */
  function Found(pk: Option<FilterKind>, rec: Recorded, container: Option<Lookup>, all: seq<Row>, ps: seq<Probe>,
                 s: Schema, pool: set<Row>): (r: Result<seq<Row>>)
    requires forall i :: 0 <= i < |all| ==> all[i] in pool
    requires container.Some? ==> Reach(container.value) <= pool
    reads pool, set x | x in pool :: x.data
    ensures r.Ok? ==> forall i :: 0 <= i < |r.value| ==> r.value[i] in pool
  {
    if pk.None? && |ps| == 0 then Ok(all)
    else
      match Candidates(pk, rec, container, all)
      case Err(e) => Err(e)
      case Ok(cands) =>
        CandidatesWithin(pk, rec, container, all, pool);
        var m := Scan(cands, RowCells(cands), ps, Some(s));
        if m.Ok? then ScanWithin(cands, RowCells(cands), ps, Some(s)); m else m
  }

  /** After match has run, the filters' own fields still find the same rows. */
  lemma FoundSettled(pk: Option<FilterKind>, rec: Recorded, container: Option<Lookup>, all: seq<Row>, fs: seq<Filter>,
                     ps: seq<Probe>, s: Schema, pool: set<Row>)
    requires forall i :: 0 <= i < |all| ==> all[i] in pool
    requires container.Some? ==> Reach(container.value) <= pool
    requires Settled(fs, ps, Some(s))
    ensures Found(pk, rec, container, all, Probes(fs), s, pool) == Found(pk, rec, container, all, ps, s, pool)
  {
    var c := Candidates(pk, rec, container, all);
    if c.Ok? {
      SettledScan(fs, ps, Some(s), c.value, RowCells(c.value));
    }
  }

  /** What get(clause) returns once the clause is planned: the rows found, listed as getAll lists them. */
  function Query(pk: Option<FilterKind>, rec: Recorded, container: Option<Lookup>, all: seq<Row>, ps: seq<Probe>,
                 s: Schema, sort: Option<seq<string>>, ascending: bool, pool: set<Row>): Result<seq<Row>>
    requires forall i :: 0 <= i < |all| ==> all[i] in pool
    requires container.Some? ==> Reach(container.value) <= pool
    reads pool, set x | x in pool :: x.data
  {
    match Found(pk, rec, container, all, ps, s, pool)
    case Err(e) => Err(e)
    case Ok(m) => Listing(s, m, sort, ascending)
  }

  /** Candidates come from the rows given, the map or the index buckets. */
  lemma CandidatesWithin(pk: Option<FilterKind>, rec: Recorded, container: Option<Lookup>, all: seq<Row>, pool: set<Row>)
    requires forall i :: 0 <= i < |all| ==> all[i] in pool
    requires container.Some? ==> Reach(container.value) <= pool
    ensures Candidates(pk, rec, container, all).Ok? ==>
      forall i :: 0 <= i < |Candidates(pk, rec, container, all).value| ==> Candidates(pk, rec, container, all).value[i] in pool
  {
    var c := Candidates(pk, rec, container, all);
    if c.Ok? && pk.None? && |rec.order| > 0 && rec.order[0] in rec.filters {
      var f := rec.filters[rec.order[0]];
      var b := container.value.indexes[f.columnName];
      forall i | 0 <= i < |c.value| ensures c.value[i] in pool {
        GatherMembers(b, f.kind.matchValues, c.value[i]);
        var j :| 0 <= j < |f.kind.matchValues| && c.value[i] in Bucket(b, f.kind.matchValues[j]);
        assert c.value[i] in IndexedRows(container.value.indexes);
      }
    }
  }

  /** A scan keeps only candidate rows. */
  lemma ScanWithin(rows: seq<Row>, cells: seq<seq<Value>>, ps: seq<Probe>, meta: Option<Schema>)
    requires |cells| == |rows| && Scan(rows, cells, ps, meta).Ok?
    ensures forall i :: 0 <= i < |Scan(rows, cells, ps, meta).value| ==> Scan(rows, cells, ps, meta).value[i] in rows
  {
    var m := Scan(rows, cells, ps, meta).value;
    forall i | 0 <= i < |m| ensures m[i] in rows {
      ScanMembers(rows, cells, ps, meta, m[i]);
    }
  }

  /** Every row a query returns passes every remaining filter. */
  lemma QueryPasses(pk: Option<FilterKind>, rec: Recorded, container: Option<Lookup>, all: seq<Row>, ps: seq<Probe>,
                    s: Schema, sort: Option<seq<string>>, ascending: bool, pool: set<Row>, x: Row)
    requires forall i :: 0 <= i < |all| ==> all[i] in pool
    requires container.Some? ==> Reach(container.value) <= pool
    requires Query(pk, rec, container, all, ps, s, sort, ascending, pool).Ok?
    requires x in Query(pk, rec, container, all, ps, s, sort, ascending, pool).value
    ensures RowPasses(ps, Some(s), x.data[..]) == Ok(true)
    ensures x in pool
  {
    if pk.None? && |ps| == 0 {
      ListingPermutes(s, all, sort, ascending);
      assert x in multiset(all);
    } else {
      var cands := Candidates(pk, rec, container, all).value;
      CandidatesWithin(pk, rec, container, all, pool);
      var cells := RowCells(cands);
      var m := Scan(cands, cells, ps, Some(s)).value;
      ListingPermutes(s, m, sort, ascending);
      assert x in multiset(m);
      ScanMembers(cands, cells, ps, Some(s), x);
    }
  }

  /**
   * With no promoted filter and no recorded index, the query is a full
   * scan: a row is returned iff it is one of the rows and passes every filter.
   */
  lemma QueryScans(rec: Recorded, container: Option<Lookup>, all: seq<Row>, ps: seq<Probe>,
                   s: Schema, sort: Option<seq<string>>, ascending: bool, pool: set<Row>, x: Row)
    requires forall i :: 0 <= i < |all| ==> all[i] in pool
    requires container.Some? ==> Reach(container.value) <= pool
    requires |rec.order| == 0 || rec.order[0] !in rec.filters
    requires Query(None, rec, container, all, ps, s, sort, ascending, pool).Ok?
    ensures x in Query(None, rec, container, all, ps, s, sort, ascending, pool).value <==>
      x in all && RowPasses(ps, Some(s), x.data[..]) == Ok(true)
  {
    if |ps| == 0 {
      ListingPermutes(s, all, sort, ascending);
      assert x in multiset(all) <==> x in all;
    } else {
      var cells := RowCells(all);
      var m := Scan(all, cells, ps, Some(s)).value;
      ListingPermutes(s, m, sort, ascending);
      assert x in multiset(m) <==> x in m;
      ScanMembers(all, cells, ps, Some(s), x);
    }
  }

  /**
   * With a promoted primary-key equality filter, the query returns stored
   * rows only, and every row stored under one of the filter's non-null
   * values that passes the remaining filters.
   */
  lemma QueryByKey(values: seq<Value>, negated: bool, rec: Recorded, l: Lookup, all: seq<Row>, ps: seq<Probe>,
                   s: Schema, sort: Option<seq<string>>, ascending: bool, pool: set<Row>, x: Row)
    requires forall i :: 0 <= i < |all| ==> all[i] in pool
    requires Reach(l) <= pool
    requires Query(Some(EqualsKind(values, negated)), rec, Some(l), all, ps, s, sort, ascending, pool).Ok?
    ensures x in Query(Some(EqualsKind(values, negated)), rec, Some(l), all, ps, s, sort, ascending, pool).value ==>
      x in l.store.Values
    ensures ((exists k :: 0 <= k < |values| && values[k] != Null && values[k] in l.store && l.store[values[k]] == x) &&
      RowPasses(ps, Some(s), x.data[..]) == Ok(true)) ==>
      x in Query(Some(EqualsKind(values, negated)), rec, Some(l), all, ps, s, sort, ascending, pool).value
  {
    var cands := PkMatches(l.store, values);
    var cells := RowCells(cands);
    var m := Scan(cands, cells, ps, Some(s)).value;
    ListingPermutes(s, m, sort, ascending);
    assert x in multiset(m) <==> x in m;
    ScanMembers(cands, cells, ps, Some(s), x);
    if x in m {
      var i :| 0 <= i < |cands| && cands[i] == x;
    }
    if (exists k :: 0 <= k < |values| && values[k] != Null && values[k] in l.store && l.store[values[k]] == x) &&
      RowPasses(ps, Some(s), x.data[..]) == Ok(true) {
      assert x in cands;
      var i :| 0 <= i < |cands| && cands[i] == x;
      assert cells[i] == x.data[..];
    }
  }

  /** Removing every listed key of a well-formed map empties it. */
  lemma RemovedEverything(t: Table)
    requires Ordered(t)
    ensures RemoveAllKeys(t, t.keys) == Table([], map[], t.identity)
  {
    var u := RemoveAllKeys(t, t.keys);
    RemoveAllKeysSpec(t, t.keys);
    assert u.store == map[];
    OrderedSize(u);
  }

  /** The keys derived for a run of rows, and the failure that stopped the run, if any. */
  datatype KeyRun = KeyRun(keys: seq<Value>, failure: Option<Error>)

  /**
   * createPrimaryKey of each row in turn, up to the first one that fails:
   * the keys of the rows before it, and its failure.
   */
  function RowKeys(s: Schema, cells: seq<seq<Value>>, show: Value -> string): (run: KeyRun)
    ensures |run.keys| <= |cells|
    ensures run.failure.None? ==> |run.keys| == |cells|
    ensures run.failure.Some? ==> |run.keys| < |cells|
  {
    if cells == [] then KeyRun([], None)
    else
      var n := |cells| - 1;
      var pre := RowKeys(s, cells[..n], show);
      if pre.failure.Some? then pre
      else
        match CreatePrimaryKey(s, Some(cells[n]), show)
        case Err(e) => KeyRun(pre.keys, Some(e))
        case Ok(k) => KeyRun(pre.keys + [k], None)
  }

  /** Each key of a run is its row's primary key, and a failure is the next row's. */
  lemma {:induction false} RowKeysSpec(s: Schema, cells: seq<seq<Value>>, show: Value -> string)
    ensures var run := RowKeys(s, cells, show);
      (forall i :: 0 <= i < |run.keys| ==> CreatePrimaryKey(s, Some(cells[i]), show) == Ok(run.keys[i])) &&
      (run.failure.Some? ==> CreatePrimaryKey(s, Some(cells[|run.keys|]), show) == Err(run.failure.value))
  {
    if cells != [] {
      var n := |cells| - 1;
      RowKeysSpec(s, cells[..n], show);
    }
  }

  /** Once a run has failed, later rows change nothing. */
  lemma {:induction false} RowKeysStops(s: Schema, cells: seq<seq<Value>>, i: nat, show: Value -> string)
    requires i < |cells| && RowKeys(s, cells[..i + 1], show).failure.Some?
    ensures RowKeys(s, cells, show) == RowKeys(s, cells[..i + 1], show)
    decreases |cells|
  {
    if |cells| > i + 1 {
      var n := |cells| - 1;
      assert cells[..n][..i + 1] == cells[..i + 1];
      RowKeysStops(s, cells[..n], i, show);
    } else {
      assert cells[..i + 1] == cells;
    }
  }

  /** With a primary key whose columns exist, rows of the schema's width all get a key. */
  lemma {:induction false} RowKeysComplete(s: Schema, cells: seq<seq<Value>>, show: Value -> string)
    requires s.primaryKeyColumns.Some? && Keyable(s, cells)
    ensures RowKeys(s, cells, show).failure.None?
  {
    if cells != [] {
      var n := |cells| - 1;
      assert Keyable(s, cells[..n]);
      RowKeysComplete(s, cells[..n], show);
      CreatePrimaryKeyOk(s, cells[n], show);
    }
  }

  /** Without a primary key every derivation fails at once, and nothing is removed. */
  lemma RowKeysWithoutKey(s: Schema, cells: seq<seq<Value>>, show: Value -> string)
    requires s.primaryKeyColumns.None? && cells != []
    ensures RowKeys(s, cells, show) == KeyRun([], Some(NullPointer))
  {
    var run := RowKeys(s, cells, show);
  }

  /** What removeData leaves and returns for the selected rows' cells. */
  datatype Removal = Removal(table: Table, result: Result<int>)

  /**
   * The map after removing the keys derived for the selected rows, and the
   * result: the key failure, the index update's failure (asked for, with
   * rows selected and an index registered), or the number of rows selected.
   */
  function Removed(t: Table, s: Schema, cells: seq<seq<Value>>, show: Value -> string,
                   updateIndices: bool, indexed: bool): (o: Removal)
  {
    var run := RowKeys(s, cells, show);
    Removal(RemoveAllKeys(t, run.keys),
            if run.failure.Some? then Err(run.failure.value)
            else if updateIndices && |cells| > 0 && indexed then Err(ClassCast)
            else Ok(|cells|))
  }

  /**
   * Removal keeps the map well formed; a key stays stored iff it was and no
   * selected row is keyed by it; every row keyed before the failure (all of
   * them when there is none) is gone.
   */
  lemma RemovedSpec(t: Table, s: Schema, cells: seq<seq<Value>>, show: Value -> string, updateIndices: bool, indexed: bool)
    requires Ordered(t)
    ensures var o := Removed(t, s, cells, show, updateIndices, indexed);
      var run := RowKeys(s, cells, show);
      Ordered(o.table) && o.table.identity == t.identity &&
      (forall k :: k in o.table.store <==> k in t.store && k !in run.keys) &&
      (o.result.Ok? ==> o.result.value == |cells| && |run.keys| == |cells|)
  {
    RemoveAllKeysSpec(t, RowKeys(s, cells, show).keys);
  }

  /** A single filed row is stored under its key. */
  lemma FiledOne(t: Table, s: Schema, row: Row, cells: seq<Value>, show: Value -> string)
    requires Keyable(s, [cells])
    ensures var key := KeyOf(s, cells, Bumped(t.identity, 1), show);
      key in Filed(t, s, [row], [cells], show).store && Filed(t, s, [row], [cells], show).store[key] == row
  {
    KeyAt(s, [cells], t.identity, show, 0);
    PutAllLastWins(t, BatchKeys(s, [cells], t.identity, show), [row], 0);
  }

  /**
   * The plan of a clause holding one filter and nothing else: a missing key
   * array fails, and so does an empty one under an equality filter; an
   * equality filter on the single key column is promoted; any other filter
   * stays listed, recorded when it is an equality filter on an indexed column.
   */
  lemma OneFilterPlan(f: Filter, pkColumns: Option<seq<string>>, indexes: map<string, Buckets>)
    ensures var p := PlanOf(null, pkColumns, [f], Recorded(map[], []), indexes);
      (p.result.Err? <==> pkColumns.None? || (|pkColumns.value| == 0 && f.kind.EqualsKind?)) &&
      (p.result.Ok? && |pkColumns.value| == 1 && EqualsOn(f, pkColumns.value[0]) ==>
        p.promoted == f && p.list == [] && p.rec == Recorded(map[], [])) &&
      (p.result.Ok? && !(|pkColumns.value| == 1 && EqualsOn(f, pkColumns.value[0])) ==>
        p.promoted == null && p.list == [f] &&
        p.rec == if IndexedOn(f, f.columnName, indexes) then Recorded(map[f.columnName := f], [f.columnName])
                 else Recorded(map[], []))
  {
    if f.kind.EqualsKind? {
      assert [f][0].kind.EqualsKind?;
    }
    assert NoteAll(Recorded(map[], []), [], indexes) == Recorded(map[], []);
  }

  /** Planning one filter leaves it in the list or promotes it. */
  lemma OneFilterList(f: Filter, pkColumns: Option<seq<string>>, indexes: map<string, Buckets>)
    ensures var p := PlanOf(null, pkColumns, [f], Recorded(map[], []), indexes);
      p.list == (if p.promoted == null then [f] else [])
  {
    OneFilterPlan(f, pkColumns, indexes);
  }

  /** A row is among the key matches iff it is stored under one of the non-null keys. */
  lemma {:induction false} PkMatchesMembers(store: map<Value, Row>, keys: seq<Value>, x: Row)
    ensures x in PkMatches(store, keys) <==>
      exists k :: 0 <= k < |keys| && keys[k] != Null && keys[k] in store && store[keys[k]] == x
  {
    if keys != [] {
      var n := |keys| - 1;
      PkMatchesMembers(store, keys[..n], x);
      if x in PkMatches(store, keys[..n]) {
        var k :| 0 <= k < n && keys[..n][k] != Null && keys[..n][k] in store && store[keys[..n][k]] == x;
        assert keys[k] == keys[..n][k];
      }
      if exists k :: 0 <= k < |keys| && keys[k] != Null && keys[k] in store && store[keys[k]] == x {
        var k :| 0 <= k < |keys| && keys[k] != Null && keys[k] in store && store[keys[k]] == x;
        if k < n {
          assert keys[..n][k] == keys[k];
        }
      }
    }
  }

  /** An equality probe on a column not yet resolved matches iff the column exists, the row reaches it and its cell is listed. */
  lemma EqualsProbe(values: seq<Value>, name: string, s: Schema, cells: seq<Value>)
    requires |values| > 0
    ensures RowPasses([Probe(EqualsKind(values, false), -1, name)], Some(s), cells) == Ok(true) <==>
      name in s.columnNames && ColumnIndex(s, name).value < |cells| && cells[ColumnIndex(s, name).value] in values
  {
    var pr := Probe(EqualsKind(values, false), -1, name);
    RowPassesAll([pr], Some(s), cells);
    if name in s.columnNames && ColumnIndex(s, name).value < |cells| {
      var v := cells[ColumnIndex(s, name).value];
      assert AnyEquals(values, v) <==> v in values;
    }
  }

  /**
   * get(columnName, values) on a column that is not promoted and not
   * recorded scans every row: a row is returned iff it is stored, the column
   * exists, the row reaches it and its cell is one of the values.
   */
  lemma ColumnScan(values: seq<Value>, name: string, l: Lookup, all: seq<Row>, s: Schema,
                   sort: Option<seq<string>>, ascending: bool, pool: set<Row>, x: Row)
    requires forall i :: 0 <= i < |all| ==> all[i] in pool
    requires Reach(l) <= pool
    requires |values| > 0
    requires Query(None, Recorded(map[], []), Some(l), all, [Probe(EqualsKind(values, false), -1, name)], s,
                   sort, ascending, pool).Ok?
    ensures x in Query(None, Recorded(map[], []), Some(l), all, [Probe(EqualsKind(values, false), -1, name)], s,
                       sort, ascending, pool).value <==>
      x in all && name in s.columnNames && ColumnIndex(s, name).value < x.data.Length &&
      x.data[ColumnIndex(s, name).value] in values
  {
    QueryScans(Recorded(map[], []), Some(l), all, [Probe(EqualsKind(values, false), -1, name)], s, sort, ascending, pool, x);
    EqualsProbe(values, name, s, x.data[..]);
  }

  /**
   * get(columnName, values) on the single key column looks the values up in
   * the map: a row is returned iff it is stored under one of the non-null
   * values.
   */
  lemma KeyColumnLookup(values: seq<Value>, l: Lookup, all: seq<Row>, s: Schema,
                        sort: Option<seq<string>>, ascending: bool, pool: set<Row>, x: Row)
    requires forall i :: 0 <= i < |all| ==> all[i] in pool
    requires Reach(l) <= pool
    requires Query(Some(EqualsKind(values, false)), Recorded(map[], []), Some(l), all, [], s, sort, ascending, pool).Ok?
    ensures x in Query(Some(EqualsKind(values, false)), Recorded(map[], []), Some(l), all, [], s, sort, ascending, pool).value <==>
      exists k :: 0 <= k < |values| && values[k] != Null && values[k] in l.store && l.store[values[k]] == x
  {
    var cands := PkMatches(l.store, values);
    ScanNoFilters(cands, RowCells(cands), Some(s));
    ListingPermutes(s, cands, sort, ascending);
    assert x in multiset(cands) <==> x in cands;
    PkMatchesMembers(l.store, values, x);
  }

  /**
   * The destination columns merge may write: the source's columns that the
   * destination also has with the same type, other than the destination's
   * key columns and the join columns, by their destination position.
   */
  ghost function Overwritable(dest: Schema, src: Schema, join: seq<string>): set<nat>
    requires |dest.columnNames| == |dest.columnTypes| && |src.columnNames| == |src.columnTypes|
  {
    set c | c in src.columnNames && c in dest.columnNames && c !in join &&
            (dest.primaryKeyColumns.None? || c !in dest.primaryKeyColumns.value) &&
            ColumnType(dest, c) == ColumnType(src, c) :: ColumnIndex(dest, c).value
  }

  /** A key column or a join column of the destination is never among the columns merge writes. */
  lemma KeysNeverWritten(dest: Schema, src: Schema, join: seq<string>, c: string)
    requires |dest.columnNames| == |dest.columnTypes| && |src.columnNames| == |src.columnTypes|
    requires c in dest.columnNames
    requires c in join || (dest.primaryKeyColumns.Some? && c in dest.primaryKeyColumns.value)
    ensures ColumnIndex(dest, c).value !in Overwritable(dest, src, join)
  {
    assert forall d :: d in dest.columnNames && ColumnIndex(dest, d).value == ColumnIndex(dest, c).value ==> d == c;
  }

  /** A written column is one the source has with the destination's type. */
  lemma WrittenColumnsMatch(dest: Schema, src: Schema, join: seq<string>, p: nat)
    requires |dest.columnNames| == |dest.columnTypes| && |src.columnNames| == |src.columnTypes|
    requires p in Overwritable(dest, src, join)
    ensures p < |dest.columnNames|
    ensures var c := dest.columnNames[p];
      c in src.columnNames && c !in join && ColumnType(dest, c) == ColumnType(src, c) &&
      (dest.primaryKeyColumns.None? || c !in dest.primaryKeyColumns.value)
  {
  }

  /** The cells of every row of a pool, by row. */
  ghost function PoolCells(pool: set<Row>): (m: map<Row, seq<Value>>)
    reads pool, set x | x in pool :: x.data
    ensures m.Keys == pool
  {
    map x | x in pool :: x.data[..]
  }

  /** Every row has kept its width, and every cell outside the positions w has kept its value. */
  predicate Agree(now: map<Row, seq<Value>>, before: map<Row, seq<Value>>, w: set<nat>) {
    now.Keys == before.Keys &&
    forall x :: x in now ==>
      |now[x]| == |before[x]| && (forall p :: 0 <= p < |now[x]| && p !in w ==> now[x][p] == before[x][p])
  }

  lemma AgreeTrans(c: map<Row, seq<Value>>, b: map<Row, seq<Value>>, a: map<Row, seq<Value>>, w: set<nat>)
    requires Agree(c, b, w) && Agree(b, a, w)
    ensures Agree(c, a, w)
  {
  }

  lemma AgreeRefl(m: map<Row, seq<Value>>, w: set<nat>)
    ensures Agree(m, m, w)
  {
  }

  lemma AgreeWider(c: map<Row, seq<Value>>, b: map<Row, seq<Value>>, v: set<nat>, w: set<nat>)
    requires Agree(c, b, v) && v <= w
    ensures Agree(c, b, w)
  {
  }

  /** Every index is registered under its own column name. */
  ghost predicate NamedIndexes(indexMap: map<string, NonUniqueIndex>) {
    forall c :: c in indexMap ==> indexMap[c].columnName == c
  }

  /**
   * A CBuilder as the builder constructor sees it: the name, the schema
   * arrays, whether it hands out a map, the rows its readRow calls return
   * (then null), whether open throws an IOException, and the readRow call
   * (counted from 0, the final null-returning call included) that throws one.
   */
  datatype Builder = Builder(
    name: string,
    columnNames: Option<seq<string>>,
    columnTypes: Option<seq<JClass>>,
    primaryKey: Option<seq<string>>,
    hasMap: bool,
    rows: seq<seq<Value>>,
    openFails: bool,
    readFails: Option<nat>)

  /** Whether one of the builder's readRow calls throws. */
  predicate ReadFails(b: Builder) {
    b.readFails.Some? && b.readFails.value <= |b.rows|
  }

  /** Whether the builder's schema arrays make a valid CRowMetaData. */
  predicate SchemaAccepted(b: Builder) {
    b.columnNames.Some? && b.columnTypes.Some? && |b.columnNames.value| == |b.columnTypes.value| &&
    (b.primaryKey.Some? ==> forall p :: p in b.primaryKey.value ==> p in b.columnNames.value)
  }

  /**
   * The container. keys/store/identityPK are the row map and the identity
   * counter; indexMap holds the registered non-unique indexes by column name.
   * show is Object.toString for composite keys.
   */
  class CacheContainer {
    const cacheName: string
    const metaData: RowMetaData
    const show: Value -> string
    var keys: seq<Value>
    var store: map<Value, Row>
    var indexMap: map<string, NonUniqueIndex>
    var identityPK: int

    ghost predicate Valid()
      reads this, metaData
    {
      WellFormedTable(TableOf()) && metaData.Valid() && NamedIndexes(indexMap)
    }

    /** The row map and the counter as a value. */
    function TableOf(): Table
      reads this
    {
      Table(keys, store, identityPK)
    }

    constructor Init(name: string, m: RowMetaData, sh: Value -> string)
      requires m.Valid()
      ensures Valid() && cacheName == name && metaData == m && show == sh
      ensures keys == [] && store == map[] && indexMap == map[] && identityPK == 0
    {
      cacheName := name;
      metaData := m;
      show := sh;
      keys := [];
      store := map[];
      indexMap := map[];
      identityPK := 0;
    }

    /**
     * init (through the public constructors): null meta data fails, then a
     * null map; otherwise an empty container with no index.
     */
    static method Create(name: string, m: RowMetaData?, hasMap: bool, sh: Value -> string) returns (r: Result<CacheContainer>)
      requires m != null ==> m.Valid()
      ensures r.Err? <==> m == null || !hasMap
      ensures r.Err? ==> r.error.NullArgument?
      ensures r.Ok? ==> (fresh(r.value) && r.value.Valid() && r.value.metaData == m && r.value.cacheName == name && r.value.show == sh &&
        r.value.keys == [] && r.value.store == map[] && r.value.indexMap == map[] && r.value.identityPK == 0)
    {
      if m == null {
        return Err(NullArgument("Meta data object cannot be null."));
      }
      if !hasMap {
        return Err(NullArgument("Data map object cannot be null."));
      }
      var c := new CacheContainer.Init(name, m, sh);
      return Ok(c);
    }

    /**
     * The builder constructor: open the builder (an IOException closes it and
     * fails), build the metadata and init (their failures escape with the
     * builder left open), read every row into a new row, and add them all
     * with the index update; an IOException while reading closes the builder
     * and fails, a corrupt row escapes with the builder open, and success
     * closes it. The container then holds exactly the rows read.
     */
    static method FromBuilder(b: Builder, sh: Value -> string) returns (r: Result<CacheContainer>, closed: bool, ghost built: seq<Row>)
      ensures b.openFails ==> r.Err? && r.error.Io? && closed
      ensures !b.openFails && !SchemaAccepted(b) ==> r.Err? && !closed
      ensures !b.openFails && SchemaAccepted(b) && !b.hasMap ==> r.Err? && r.error.NullArgument? && !closed
      ensures !b.openFails && SchemaAccepted(b) && b.hasMap && ReadFails(b) ==> r.Err? && r.error.Io? && closed
      ensures !b.openFails && SchemaAccepted(b) && b.hasMap && !ReadFails(b) ==>
        (exists i :: 0 <= i < |b.rows| && |b.rows[i]| != |b.columnNames.value|) ==> r == Err(CorruptRow) && !closed
      ensures r.Ok? <==>
        !b.openFails && SchemaAccepted(b) && b.hasMap && !ReadFails(b) &&
        forall i :: 0 <= i < |b.rows| ==> |b.rows[i]| == |b.columnNames.value|
      ensures r.Ok? ==>
        closed && fresh(r.value) && r.value.Valid() && r.value.indexMap == map[] && r.value.show == sh &&
        r.value.cacheName == b.name &&
        r.value.metaData.Snapshot() == Schema(b.columnNames.value, b.columnTypes.value, b.primaryKey) &&
        |built| == |b.rows| && (forall i :: 0 <= i < |built| ==> fresh(built[i]) && built[i].data[..] == b.rows[i]) &&
        r.value.TableOf() == Filed(Table([], map[], 0), r.value.metaData.Snapshot(), built, b.rows, sh)
    {
      built := [];
      if b.openFails {
        return Err(Io("open")), true, built;
      }
      var m := RowMetaData.Create(b.columnNames, b.columnTypes, b.primaryKey);
      if m.Err? {
        return Err(m.error), false, built;
      }
      var made := Create(b.name, m.value, b.hasMap, sh);
      if made.Err? {
        return Err(made.error), false, built;
      }
      var c := made.value;
      var loaded;
      loaded, closed, built := c.Load(b);
      if loaded.Err? {
        return Err(loaded.error), closed, built;
      }
      return Ok(c), closed, built;
    }

    /**
     * The rest of the builder constructor on a freshly initialised container:
     * read the rows, then addData(rows) with the index update.
     */
    method Load(b: Builder) returns (r: Result<int>, closed: bool, ghost built: seq<Row>)
      requires Valid() && indexMap == map[]
      modifies this
      ensures Valid() && indexMap == old(indexMap)
      ensures ReadFails(b) ==> r.Err? && r.error.Io? && closed && TableOf() == old(TableOf())
      ensures !ReadFails(b) && (exists i :: 0 <= i < |b.rows| && |b.rows[i]| != |metaData.columnNames|) ==>
        r == Err(CorruptRow) && !closed && TableOf() == old(TableOf())
      ensures r.Ok? <==> !ReadFails(b) && forall i :: 0 <= i < |b.rows| ==> |b.rows[i]| == |metaData.columnNames|
      ensures r.Ok? ==>
        closed && r.value == |b.rows| &&
        |built| == |b.rows| && (forall i :: 0 <= i < |built| ==> fresh(built[i]) && built[i].data[..] == b.rows[i]) &&
        TableOf() == Filed(old(TableOf()), metaData.Snapshot(), built, b.rows, show)
    {
      built := [];
      var rows, failed := ReadRows(b);
      if failed {
        return Err(Io("readRow")), true, built;
      }
      built := rows;
      assert RowCells(rows) == b.rows;
      r := AddRead(rows, b.rows);
      closed := r.Ok?;
    }

    /** addData(rows, true) of the rows just read, into a container without indexes. */
    method AddRead(rows: seq<Row>, ghost cells: seq<seq<Value>>) returns (r: Result<int>)
      requires Valid() && indexMap == map[] && RowCells(rows) == cells
      modifies this
      ensures Valid() && indexMap == old(indexMap)
      ensures r.Ok? <==> forall i :: 0 <= i < |cells| ==> |cells[i]| == |metaData.columnNames|
      ensures r.Err? ==> r == Err(CorruptRow) && TableOf() == old(TableOf())
      ensures r.Ok? ==> r.value == |cells| && TableOf() == Filed(old(TableOf()), metaData.Snapshot(), rows, cells, show)
    {
      ghost var width := |metaData.columnNames|;
      ghost var fits := forall i :: 0 <= i < |cells| ==> |cells[i]| == width;
      assert Sound(rows, width) == fits;
      assert fits ==> NonNull(rows) == rows;
      assert AfterAdd(TableOf(), rows) == if |rows| == 0 || !fits then TableOf() else Filed(TableOf(), metaData.Snapshot(), rows, cells, show);
      r := AddRows(Some(rows), true);
      assert |rows| == 0 ==> Filed(old(TableOf()), metaData.Snapshot(), rows, cells, show) == old(TableOf());
    }

    /**
     * The read loop of the builder constructor: one new row per array
     * readRow returns, until it returns null; failed when a call throws.
     */
    static method ReadRows(b: Builder) returns (rows: seq<Row>, failed: bool)
      ensures failed <==> ReadFails(b)
      ensures !failed ==>
        |rows| == |b.rows| &&
        forall i :: 0 <= i < |rows| ==> fresh(rows[i]) && fresh(rows[i].data) && rows[i].data[..] == b.rows[i]
    {
      rows := [];
      var i := 0;
      while i < |b.rows|
        invariant 0 <= i <= |b.rows| && |rows| == i
        invariant b.readFails.Some? ==> b.readFails.value >= i
        invariant forall k :: 0 <= k < i ==> fresh(rows[k]) && fresh(rows[k].data) && rows[k].data[..] == b.rows[k]
      {
        if b.readFails == Some(i) {
          return [], true;
        }
        var cells := b.rows[i];
        var a := new Value[|cells|](j requires 0 <= j < |cells| => cells[j]);
        var row := new Row.Init(a);
        rows := rows + [row];
        i := i + 1;
      }
      if b.readFails == Some(|b.rows|) {
        return [], true;
      }
      return rows, false;
    }

    /**
     * newInsertionOrdered: the column names arrive as one comma-separated
     * text, split with String.split (a null text throws); the schema has no
     * primary key, so rows are keyed by the identity counter, in insertion
     * order. The metadata constructor's checks apply to the split names.
     */
    static method NewInsertionOrdered(name: string, columnNames: Option<string>, columnTypes: Option<seq<JClass>>, sh: Value -> string)
      returns (r: Result<CacheContainer>)
      ensures columnNames.None? ==> r == Err(NullPointer)
      ensures columnNames.Some? ==>
        var names := JavaSplit(columnNames.value, ',');
        (r.Err? <==> columnTypes.None? || |names| != |columnTypes.value|) &&
        (r.Ok? ==> (fresh(r.value) && r.value.Valid() && r.value.keys == [] && r.value.indexMap == map[] &&
                    r.value.metaData.Snapshot() == Schema(names, columnTypes.value, None)))
    {
      if columnNames.None? {
        return Err(NullPointer);
      }
      var names := JavaSplit(columnNames.value, ',');
      var m := RowMetaData.Create(Some(names), columnTypes, None);
      if m.Err? {
        return Err(m.error);
      }
      r := Create(name, m.value, true, sh);
    }

    /** size(): the number of stored rows, which is the length of the key order. */
    function Size(): (n: nat)
      reads this
      ensures Ordered(TableOf()) ==> n == |keys|
    {
      OrderedSize(TableOf());
      |store|
    }

    /** getAllRows: the stored rows in map order. */
    function AllRows(): (rs: seq<Row>)
      requires Valid()
      reads this, metaData
      ensures |rs| == |keys| && forall i :: 0 <= i < |keys| ==> rs[i] == store[keys[i]]
      ensures store.Values == set i | 0 <= i < |rs| :: rs[i]
    {
      var rs := ValuesOf(TableOf());
      forall x | x in store.Values ensures x in set i | 0 <= i < |rs| :: rs[i] {
        var k :| k in store && store[k] == x;
        var i :| 0 <= i < |keys| && keys[i] == k;
        assert rs[i] == x;
      }
      rs
    }

    /** updateIndices: nothing to do without indexes; with any index the key-set cast throws. */
    method UpdateIndices() returns (r: Result<()>)
      ensures r.Ok? <==> indexMap == map[]
      ensures r.Err? ==> r.error == ClassCast
    {
      if |indexMap| < 1 {
        return Ok(());
      }
      return Err(ClassCast);
    }

    /** A batch as addData sees it: a null batch is an empty one. */
    static function BatchOf(rows: Option<seq<Row?>>): seq<Row?> {
      if rows.None? then [] else rows.value
    }

    /**
     * The row map addData(rows) leaves: unchanged for an empty batch or one
     * that fails the cardinality check, otherwise every row filed.
     */
    ghost function AfterAdd(t: Table, batch: seq<Row?>): Table
      requires metaData.Valid()
      reads metaData, set i | 0 <= i < |batch| && batch[i] != null :: batch[i]
      reads set i | 0 <= i < |batch| && batch[i] != null :: batch[i].data
    {
      if |batch| == 0 || !Sound(batch, |metaData.columnNames|) then t
      else
        var rs := NonNull(batch);
        Filed(t, metaData.Snapshot(), rs, RowCells(rs), show)
    }

    /**
     * What addData(rows, updateIndices) returns: 0 for an empty batch, a
     * corrupt-row failure, the batch length, or the failure of the index
     * update (thrown after the rows are in).
     */
    ghost function AddOutcome(batch: seq<Row?>, updateIndices: bool): Result<int>
      reads this, metaData, set i | 0 <= i < |batch| && batch[i] != null :: batch[i]
    {
      if |batch| == 0 then Ok(0)
      else if !Sound(batch, |metaData.columnNames|) then Err(CorruptRow)
      else if updateIndices && indexMap != map[] then Err(ClassCast)
      else Ok(|batch|)
    }

    /**
     * addData(rows, updateIndices): a null or empty batch gives 0; a null row
     * or a row whose width differs from the schema fails before any put;
     * otherwise every row is filed (last write wins), the result is the
     * batch length, and asking for an index update then fails as soon as an
     * index is registered, after the rows are in.
     */
    method AddRows(rows: Option<seq<Row?>>, updateIndices: bool) returns (r: Result<int>)
      requires Valid()
      modifies this
      ensures Valid() && indexMap == old(indexMap)
      ensures r == AddOutcome(BatchOf(rows), updateIndices)
      ensures TableOf() == old(AfterAdd(TableOf(), BatchOf(rows)))
    {
      if rows.None? || |rows.value| < 1 {
        return Ok(0);
      }
      var batch := rows.value;
      var sound := CheckBatch(batch, |metaData.columnNames|);
      if !sound {
        return Err(CorruptRow);
      }
      var count := FileRows(batch);
      if updateIndices {
        var u := UpdateIndices();
        if u.Err? {
          return Err(u.error);
        }
      }
      return Ok(count);
    }

    /** The cardinality check of addData. */
    static method CheckBatch(batch: seq<Row?>, width: nat) returns (ok: bool)
      ensures ok == Sound(batch, width)
    {
      var i := 0;
      while i < |batch|
        invariant 0 <= i <= |batch|
        invariant forall k :: 0 <= k < i ==> batch[k] != null && batch[k].data.Length == width
      {
        if batch[i] == null || batch[i].data.Length != width {
          return false;
        }
        i := i + 1;
      }
      return true;
    }

    /** The put loop of addData over a batch that passed the cardinality check. */
    method FileRows(batch: seq<Row?>) returns (count: int)
      requires Valid() && |batch| > 0 && Sound(batch, |metaData.columnNames|)
      modifies this
      ensures Valid() && indexMap == old(indexMap) && count == |batch|
      ensures TableOf() == old(AfterAdd(TableOf(), batch))
    {
      FileShape(batch);
      var rs := NonNull(batch);
      var s := metaData.Snapshot();
      var cells := RowCells(rs);
      var ks, id := KeysOf(s, cells, identityPK, show);
      var t := PutRows(TableOf(), ks, rs);
      keys, store, identityPK := t.keys, t.store, id;
      count := |rs|;
    }

    /** The table the put loop of addData leaves for a sound batch, and that it is well formed. */
    lemma FileShape(batch: seq<Row?>)
      requires Valid() && |batch| > 0 && Sound(batch, |metaData.columnNames|)
      ensures var rs := NonNull(batch); var cells := RowCells(rs); var s := metaData.Snapshot();
        |rs| == |batch| && |cells| == |rs| && Keyable(s, cells) &&
        var u := PutAll(TableOf(), BatchKeys(s, cells, identityPK, show), rs);
        var after := Table(u.keys, u.store, if s.primaryKeyColumns.None? then Bumped(identityPK, |cells|) else identityPK);
        AfterAdd(TableOf(), batch) == after && WellFormedTable(after)
    {
      var rs := NonNull(batch);
      var s := metaData.Snapshot();
      var cells := RowCells(rs);
      FiledOrdered(TableOf(), s, rs, cells, show);
    }

    /**
     * The keys of the put loop: without a primary key the counter is bumped
     * before each row and the row is keyed by it; otherwise each row's
     * primary key. id is the counter after the loop.
     */
    static method KeysOf(s: Schema, cells: seq<seq<Value>>, identity: int, show: Value -> string) returns (ks: seq<Value>, id: int)
      requires Keyable(s, cells)
      ensures ks == BatchKeys(s, cells, identity, show)
      ensures id == if s.primaryKeyColumns.None? then Bumped(identity, |cells|) else identity
    {
      ghost var all := BatchKeys(s, cells, identity, show);
      ks, id := [], identity;
      var j := 0;
      while j < |cells|
        invariant 0 <= j <= |cells| && |ks| == j
        invariant forall i :: 0 <= i < j ==> ks[i] == all[i]
        invariant id == if s.primaryKeyColumns.None? then Bumped(identity, j) else identity
      {
        if s.primaryKeyColumns.None? {
          id := Wrap32(id + 1);
        }
        KeyAt(s, cells, identity, show, j);
        ks := ks + [KeyOf(s, cells[j], id, show)];
        j := j + 1;
      }
    }

    /** The puts themselves, on the map as a value. */
    static method PutRows(t0: Table, ks: seq<Value>, rs: seq<Row>) returns (t: Table)
      requires |ks| == |rs|
      ensures t == PutAll(t0, ks, rs)
    {
      t := t0;
      var j := 0;
      while j < |rs|
        invariant 0 <= j <= |rs|
        invariant t == PutAll(t0, ks[..j], rs[..j])
      {
        PutStep(t0, ks, rs, j);
        t := Table(if ks[j] in t.store then t.keys else t.keys + [ks[j]], t.store[ks[j] := rs[j]], t.identity);
        j := j + 1;
      }
      assert ks[..j] == ks && rs[..j] == rs;
    }

    /** The removal loop: Map.remove of each key in turn, on the map as a value. */
    static method RemoveKeys(t0: Table, ks: seq<Value>) returns (t: Table)
      ensures t == RemoveAllKeys(t0, ks)
    {
      t := t0;
      var j := 0;
      while j < |ks|
        invariant 0 <= j <= |ks|
        invariant t == RemoveAllKeys(t0, ks[..j])
      {
        assert ks[..j + 1][..j] == ks[..j];
        t := Table(Without(t.keys, ks[j]), t.store - {ks[j]}, t.identity);
        j := j + 1;
      }
      assert ks[..j] == ks;
    }

    /** What a filter clause may call back: the row map and the buckets of every registered index. */
    function Snapshot(): (l: Lookup)
      reads this, indexMap.Values
      ensures l.store == store && l.indexes.Keys == indexMap.Keys
    {
      Lookup(store, map c | c in indexMap :: indexMap[c].buckets)
    }

    /** getAll(sortColumnNames, ascending): every stored row, in map order unless sorted. */
    method GetAll(sort: Option<seq<string>>, ascending: bool) returns (r: Result<RowSet>)
      requires Valid()
      ensures r.Ok? <==> old(Listing(metaData.Snapshot(), AllRows(), sort, ascending)).Ok?
      ensures r.Err? ==> r.error == old(Listing(metaData.Snapshot(), AllRows(), sort, ascending)).error
      ensures r.Ok? ==> (fresh(r.value) && r.value.Valid() && r.value.metaData == metaData && r.value.cursor == 0 &&
        r.value.list == old(Listing(metaData.Snapshot(), AllRows(), sort, ascending)).value)
      ensures r.Ok? ==> |r.value.list| == |keys|
    {
      var rows := AllRows();
      if Listing(metaData.Snapshot(), rows, sort, ascending).Ok? {
        ListingLength(metaData.Snapshot(), rows, sort, ascending);
      }
      r := RowSet.Listed(metaData, rows, sort, ascending);
    }

    /** getAll(): sorted ascending by the primary-key columns (unsorted without a primary key). */
    method GetAllDefault() returns (r: Result<RowSet>)
      requires Valid()
      ensures var l := old(Listing(metaData.Snapshot(), AllRows(), metaData.primaryKeyColumns, true));
        (r.Ok? <==> l.Ok?) && (r.Err? ==> r.error == l.error) &&
        (r.Ok? ==> fresh(r.value) && r.value.Valid() && r.value.metaData == metaData && r.value.cursor == 0 && r.value.list == l.value) &&
        (r.Ok? ==> |r.value.list| == |keys|)
    {
      r := GetAll(metaData.primaryKeyColumns, true);
    }

    /**
     * get(filterClause, sortColumnNames, ascending): a null clause fails; a
     * clause without filters is getAll; otherwise the clause is given the
     * schema and this container, planned, and matched against every row, and
     * the matches are listed (and sorted) in a fresh row set.
     */
    method Get(clause: Clause?, sort: Option<seq<string>>, ascending: bool) returns (r: Result<RowSet>)
      requires Valid()
      requires clause != null ==> clause.Valid()
      modifies clause, if clause == null then [] else clause.filterList
      ensures clause == null ==> r == Err(NullPointer)
      ensures clause != null ==> clause.Valid()
      ensures clause != null && old(clause.Size()) < 1 ==>
        (r.Ok? <==> old(Listing(metaData.Snapshot(), AllRows(), sort, ascending)).Ok?) &&
        (r.Ok? ==> r.value.list == old(Listing(metaData.Snapshot(), AllRows(), sort, ascending)).value)
      ensures clause != null && old(clause.Size()) >= 1 ==>
        var l := old(Snapshot());
        var p := old(PlanOf(clause.primaryKeyFilter, metaData.primaryKeyColumns, clause.filterList, clause.Planned(), l.indexes));
        clause.metaDef == metaData && clause.container == Some(l) &&
        clause.filterList == p.list && clause.primaryKeyFilter == p.promoted && clause.Planned() == p.rec &&
        (p.result.Ok? ==> Settled(p.list, old(Probes(p.list)), Some(metaData.Snapshot()))) &&
        var q := Query(PkKind(p.promoted), p.rec, Some(l), old(AllRows()), old(Probes(p.list)), metaData.Snapshot(),
                       sort, ascending, Reach(l));
        (r.Ok? <==> p.result.Ok? && q.Ok?) && (r.Ok? ==> r.value.list == q.value)
      ensures r.Ok? ==> fresh(r.value) && r.value.Valid() && r.value.metaData == metaData && r.value.cursor == 0
    {
      if clause == null {
        return Err(NullPointer);
      }
      if clause.Size() < 1 {
        r := GetAll(sort, ascending);
        return;
      }
      r := GetFiltered(clause, sort, ascending);
    }

    /** get with a clause that holds filters: plan, then answer. */
    method GetFiltered(clause: Clause, sort: Option<seq<string>>, ascending: bool) returns (r: Result<RowSet>)
      requires Valid() && clause.Valid() && clause.Size() >= 1
      modifies clause, clause.filterList
      ensures clause.Valid()
      ensures
        var l := old(Snapshot());
        var p := old(PlanOf(clause.primaryKeyFilter, metaData.primaryKeyColumns, clause.filterList, clause.Planned(), l.indexes));
        clause.metaDef == metaData && clause.container == Some(l) &&
        clause.filterList == p.list && clause.primaryKeyFilter == p.promoted && clause.Planned() == p.rec &&
        (p.result.Ok? ==> Settled(p.list, old(Probes(p.list)), Some(metaData.Snapshot()))) &&
        var q := Query(PkKind(p.promoted), p.rec, Some(l), old(AllRows()), old(Probes(p.list)), metaData.Snapshot(),
                       sort, ascending, Reach(l));
        (r.Ok? <==> p.result.Ok? && q.Ok?) && (r.Ok? ==> r.value.list == q.value)
      ensures r.Ok? ==> fresh(r.value) && r.value.Valid() && r.value.metaData == metaData && r.value.cursor == 0
    {
      ghost var l := Snapshot();
      ghost var p := PlanOf(clause.primaryKeyFilter, metaData.primaryKeyColumns, clause.filterList, clause.Planned(), l.indexes);
      ghost var before := Probes(p.list);
      ghost var s := metaData.Snapshot();
      var rows := AllRows();
      var planned := Plan(clause);
      if planned.Err? {
        return Err(planned.error);
      }
      assert clause.filterList == p.list && Probes(clause.filterList) == before;
      r := Answer(clause, rows, sort, ascending, PkKind(p.promoted), p.rec, l, before, s);
      assert metaData.Snapshot() == s;
      assert clause.Valid() && clause.metaDef == metaData && clause.container == Some(l);
      assert clause.filterList == p.list && clause.primaryKeyFilter == p.promoted && clause.Planned() == p.rec;
    }

    /**
     * The answering half of get: a planned clause matched, then listed as
     * getAll lists rows. pk, rec, l, ps and s are the clause's promoted
     * filter kind, record, lookup and probes and the schema when it starts.
     */
    method Answer(clause: Clause, rows: seq<Row>, sort: Option<seq<string>>, ascending: bool,
                  ghost pk: Option<FilterKind>, ghost rec: Recorded, ghost l: Lookup, ghost ps: seq<Probe>, ghost s: Schema)
      returns (r: Result<RowSet>)
      requires Valid() && clause.Valid() && rows == AllRows()
      requires clause.metaDef == metaData && clause.container == Some(l) && l.store == store
      requires forall i :: 0 <= i < |rows| ==> rows[i] in Reach(l)
      requires pk == PkKind(clause.primaryKeyFilter) && rec == clause.Planned() && ps == Probes(clause.filterList)
      requires s == metaData.Snapshot()
      modifies clause.filterList
      ensures Settled(clause.filterList, ps, Some(s))
      ensures var q := Query(pk, rec, Some(l), rows, ps, s, sort, ascending, Reach(l));
        (r.Ok? <==> q.Ok?) && (r.Ok? ==> r.value.list == q.value)
      ensures r.Ok? ==> fresh(r.value) && r.value.Valid() && r.value.metaData == metaData && r.value.cursor == 0
    {
      var found := Select(clause, rows, pk, rec, l, ps, s);
      r := ListFound(found, rows, sort, ascending, pk, rec, l, ps, s);
    }

    /** The rows a query found, listed as getAll lists them. */
    method ListFound(found: Result<seq<Row>>, rows: seq<Row>, sort: Option<seq<string>>, ascending: bool,
                     ghost pk: Option<FilterKind>, ghost rec: Recorded, ghost l: Lookup, ghost ps: seq<Probe>, ghost s: Schema)
      returns (r: Result<RowSet>)
      requires metaData.Valid() && s == metaData.Snapshot()
      requires forall i :: 0 <= i < |rows| ==> rows[i] in Reach(l)
      requires found == Found(pk, rec, Some(l), rows, ps, s, Reach(l))
      ensures var q := Query(pk, rec, Some(l), rows, ps, s, sort, ascending, Reach(l));
        (r.Ok? <==> q.Ok?) && (r.Ok? ==> r.value.list == q.value)
      ensures r.Ok? ==> fresh(r.value) && r.value.Valid() && r.value.metaData == metaData && r.value.cursor == 0
    {
      ghost var q := Query(pk, rec, Some(l), rows, ps, s, sort, ascending, Reach(l));
      if found.Err? {
        return Err(found.error);
      }
      assert q == Listing(s, found.value, sort, ascending);
      r := RowSet.Listed(metaData, found.value, sort, ascending);
      assert Query(pk, rec, Some(l), rows, ps, s, sort, ascending, Reach(l)) == q;
    }

    /** The planning half of get: the clause gets the schema and this container and runs optimizeOrder. */
    method Plan(clause: Clause) returns (r: Result<()>)
      requires Valid() && clause.Valid()
      modifies clause
      ensures unchanged(this, metaData)
      ensures clause.Valid() && clause.metaDef == metaData && clause.container == Some(old(Snapshot()))
      ensures var p := old(PlanOf(clause.primaryKeyFilter, metaData.primaryKeyColumns, clause.filterList, clause.Planned(),
                                  Snapshot().indexes));
        r == p.result && clause.filterList == p.list && clause.primaryKeyFilter == p.promoted && clause.Planned() == p.rec &&
        Probes(p.list) == old(Probes(p.list))
    {
      var l := Snapshot();
      clause.SetMetaDefinition(metaData);
      r := clause.SetCacheContainerCallbackOptimization(l);
      ghost var fs := clause.filterList;
      ghost var now := Probes(fs);
      ghost var before := old(Probes(fs));
      forall j | 0 <= j < |fs| ensures now[j] == before[j] {
        var f := fs[j];
        assert f.columnIndex == old(f.columnIndex);
      }
      assert now == before;
    }

    /** match(rows) of a clause planned over this container: the rows Found selects. */
    method Select(clause: Clause, rows: seq<Row>,
                  ghost pk: Option<FilterKind>, ghost rec: Recorded, ghost l: Lookup, ghost ps: seq<Probe>, ghost s: Schema)
      returns (r: Result<seq<Row>>)
      requires Valid() && clause.Valid() && rows == AllRows()
      requires clause.metaDef == metaData && clause.container == Some(l) && l.store == store
      requires pk == PkKind(clause.primaryKeyFilter) && rec == clause.Planned() && ps == Probes(clause.filterList)
      requires s == metaData.Snapshot()
      modifies clause.filterList
      ensures unchanged(this, metaData, clause)
      ensures Settled(clause.filterList, ps, Some(s))
      ensures r == Found(pk, rec, Some(l), rows, ps, s, Reach(l))
    {
      ghost var found := Found(pk, rec, Some(l), rows, ps, s, Reach(l));
      assert MetaOf(clause.metaDef) == Some(s);
      r := clause.Match(rows);
      assert r == found;
    }

    /**
     * get(columnName, values, sortColumnNames, ascending): one equality
     * filter on the column in a fresh clause, then get(clause, ...). A null
     * column name or a null or empty value list fails before any query;
     * otherwise the plan is the plan of that one filter, and the rows are
     * those the query selects (see ColumnScan and KeyColumnLookup).
     */
    method GetByColumn(columnName: Option<string>, values: Option<seq<Value>>, sort: Option<seq<string>>, ascending: bool)
      returns (r: Result<RowSet>, ghost f: Filter?)
      requires Valid()
      ensures columnName.None? || values.None? || |values.value| < 1 ==> r.Err? && r.error.NullArgument?
      ensures columnName.Some? && values.Some? && |values.value| >= 1 ==>
        f != null && fresh(f) && f.columnName == columnName.value && f.kind == EqualsKind(values.value, false) &&
        var l := old(Snapshot());
        var p := PlanOf(null, metaData.primaryKeyColumns, [f], Recorded(map[], []), l.indexes);
        var q := Query(PkKind(p.promoted), p.rec, Some(l), old(AllRows()),
                       if p.list == [] then [] else [Probe(f.kind, -1, f.columnName)],
                       metaData.Snapshot(), sort, ascending, Reach(l));
        (r.Ok? <==> p.result.Ok? && q.Ok?) && (r.Ok? ==> r.value.list == q.value)
      ensures r.Ok? ==> fresh(r.value) && r.value.Valid() && r.value.metaData == metaData && r.value.cursor == 0
    {
      ghost var l := Snapshot();
      ghost var all := AllRows();
      var made := Filter.CreateEquals(columnName, values, false);
      if made.Err? {
        return Err(made.error), null;
      }
      f := made.value;
      assert Snapshot() == l && AllRows() == all;
      ghost var p := PlanOf(null, metaData.primaryKeyColumns, [f], Recorded(map[], []), l.indexes);
      ghost var ps := if p.list == [] then [] else [Probe(f.kind, -1, f.columnName)];
      OneFilterList(f, metaData.primaryKeyColumns, l.indexes);
      assert Probes(p.list) == ps;
      r := AskFilter(made.value, sort, ascending, l, all, p, ps);
    }

    /**
     * get(clause, ...) on a fresh clause holding the one new filter f, whose
     * plan p and probes ps are known.
     */
    method AskFilter(f: Filter, sort: Option<seq<string>>, ascending: bool,
                     ghost l: Lookup, ghost all: seq<Row>, ghost p: Planning, ghost ps: seq<Probe>)
      returns (r: Result<RowSet>)
      requires Valid() && l == Snapshot() && all == AllRows() && f.columnIndex == -1
      requires p == PlanOf(null, metaData.primaryKeyColumns, [f], Recorded(map[], []), l.indexes)
      requires ps == Probes(p.list)
      modifies f
      ensures var q := Query(PkKind(p.promoted), p.rec, Some(l), all, ps, metaData.Snapshot(), sort, ascending, Reach(l));
        (r.Ok? <==> p.result.Ok? && q.Ok?) && (r.Ok? ==> r.value.list == q.value)
      ensures r.Ok? ==> fresh(r.value) && r.value.Valid() && r.value.metaData == metaData && r.value.cursor == 0
    {
      var clause := OneFilterClause(f);
      assert Valid() && Snapshot() == l && AllRows() == all && Probes(p.list) == ps;
      assert p == PlanOf(clause.primaryKeyFilter, metaData.primaryKeyColumns, clause.filterList, clause.Planned(), l.indexes);
      r := Ask(clause, sort, ascending, p, l, all, ps);
    }

    /** A fresh clause holding one filter and nothing else. */
    static method OneFilterClause(f: Filter) returns (clause: Clause)
      ensures fresh(clause) && clause.Valid() && clause.Size() == 1
      ensures clause.filterList == [f] && clause.primaryKeyFilter == null && clause.Planned() == Recorded(map[], [])
    {
      clause := new Clause();
      var added := clause.AddFilter(f);
    }

    /** get(clause, ...) on a fresh clause whose plan, lookup, rows and probes are known. */
    method Ask(clause: Clause, sort: Option<seq<string>>, ascending: bool,
               ghost p: Planning, ghost l: Lookup, ghost all: seq<Row>, ghost ps: seq<Probe>) returns (r: Result<RowSet>)
      requires Valid() && clause.Valid() && clause.Size() >= 1
      requires l == Snapshot() && all == AllRows() && ps == Probes(p.list)
      requires p == PlanOf(clause.primaryKeyFilter, metaData.primaryKeyColumns, clause.filterList, clause.Planned(), l.indexes)
      modifies clause, clause.filterList
      ensures var q := Query(PkKind(p.promoted), p.rec, Some(l), all, ps, metaData.Snapshot(), sort, ascending, Reach(l));
        (r.Ok? <==> p.result.Ok? && q.Ok?) && (r.Ok? ==> r.value.list == q.value)
      ensures r.Ok? ==> fresh(r.value) && r.value.Valid() && r.value.metaData == metaData && r.value.cursor == 0
    {
      r := Get(clause, sort, ascending);
    }

    /** get(columnName, values): unsorted, through get(columnName, values, null, true). */
    method GetByColumnDefault(columnName: Option<string>, values: Option<seq<Value>>)
      returns (r: Result<RowSet>, ghost f: Filter?)
      requires Valid()
      ensures columnName.None? || values.None? || |values.value| < 1 ==> r.Err? && r.error.NullArgument?
      ensures columnName.Some? && values.Some? && |values.value| >= 1 ==>
        f != null && fresh(f) && f.columnName == columnName.value && f.kind == EqualsKind(values.value, false) &&
        var l := old(Snapshot());
        var p := PlanOf(null, metaData.primaryKeyColumns, [f], Recorded(map[], []), l.indexes);
        var q := Query(PkKind(p.promoted), p.rec, Some(l), old(AllRows()),
                       if p.list == [] then [] else [Probe(f.kind, -1, f.columnName)],
                       metaData.Snapshot(), None, true, Reach(l));
        (r.Ok? <==> p.result.Ok? && q.Ok?) && (r.Ok? ==> r.value.list == q.value)
      ensures r.Ok? ==> fresh(r.value) && r.value.Valid() && r.value.metaData == metaData && r.value.cursor == 0
    {
      r, f := GetByColumn(columnName, values, None, true);
    }

    /**
     * get(filterClause): unsorted, through get(filterClause, null, true). A
     * null clause fails; a clause without filters lists every row.
     */
    method GetDefault(clause: Clause?) returns (r: Result<RowSet>)
      requires Valid()
      requires clause != null ==> clause.Valid()
      modifies clause, if clause == null then [] else clause.filterList
      ensures clause == null ==> r == Err(NullPointer)
      ensures clause != null && old(clause.Size()) < 1 ==>
        (r.Ok? <==> old(Listing(metaData.Snapshot(), AllRows(), None, true)).Ok?) &&
        (r.Ok? ==> r.value.list == old(Listing(metaData.Snapshot(), AllRows(), None, true)).value)
      ensures clause != null && old(clause.Size()) >= 1 ==>
        var l := old(Snapshot());
        var p := old(PlanOf(clause.primaryKeyFilter, metaData.primaryKeyColumns, clause.filterList, clause.Planned(), l.indexes));
        var q := Query(PkKind(p.promoted), p.rec, Some(l), old(AllRows()), old(Probes(p.list)), metaData.Snapshot(),
                       None, true, Reach(l));
        (r.Ok? <==> p.result.Ok? && q.Ok?) && (r.Ok? ==> r.value.list == q.value)
      ensures r.Ok? ==> fresh(r.value) && r.value.Valid() && r.value.metaData == metaData && r.value.cursor == 0
    {
      r := Get(clause, None, true);
    }

    /**
     * getPrimaryKeyMatches(values): a null array fails; otherwise the rows
     * stored under the non-null values, in the order of the values, misses
     * dropped.
     */
    method GetPrimaryKeyMatches(values: Option<seq<Value>>) returns (r: Result<seq<Row>>)
      ensures values.None? ==> r == Err(NullPointer)
      ensures values.Some? ==> r == Ok(PkMatches(store, values.value))
    {
      if values.None? {
        return Err(NullPointer);
      }
      var vs := values.value;
      var rows: seq<Row> := [];
      var i := 0;
      while i < |vs|
        invariant 0 <= i <= |vs|
        invariant rows == PkMatches(store, vs[..i])
      {
        assert vs[..i + 1][..i] == vs[..i];
        if vs[i] != Null && vs[i] in store {
          rows := rows + [store[vs[i]]];
        }
        i := i + 1;
      }
      assert vs[..i] == vs;
      return Ok(rows);
    }

    /**
     * addUniqueIndex: a registered column or a known column is accepted and
     * nothing is built; an unknown, unregistered column fails.
     */
    method AddUniqueIndex(columnName: string) returns (r: Result<()>)
      ensures r.Err? <==> columnName !in indexMap && columnName !in metaData.columnNames
      ensures r.Err? ==> r.error == UnknownColumn(columnName)
    {
      if columnName in indexMap {
        return Ok(());
      }
      if columnName !in metaData.columnNames {
        return Err(UnknownColumn(columnName));
      }
      return Ok(());
    }

    /**
     * addNonUniqueIndex: a registered column is left as it is; an unknown
     * column fails; otherwise a new index over the column is filled with
     * every stored row, in map order, and registered. A row too short for
     * the column makes the indexing fail, and then nothing is registered.
     */
    method AddNonUniqueIndex(columnName: string) returns (r: Result<()>)
      requires Valid()
      modifies this
      ensures Valid() && TableOf() == old(TableOf())
      ensures old(columnName in indexMap) ==> r.Ok? && indexMap == old(indexMap)
      ensures old(columnName !in indexMap) && columnName !in metaData.columnNames ==>
        r == Err(UnknownColumn(columnName)) && indexMap == old(indexMap)
      ensures old(columnName !in indexMap) && columnName in metaData.columnNames ==>
        var idx := ColumnIndex(metaData.Snapshot(), columnName).value;
        var rows := old(AllRows());
        (r.Ok? <==> old(Covers(rows, idx))) &&
        (r.Err? ==> indexMap == old(indexMap)) &&
        (r.Ok? ==> (columnName in indexMap && indexMap == old(indexMap)[columnName := indexMap[columnName]] &&
          fresh(indexMap[columnName]) && indexMap[columnName].columnIndex == idx &&
          indexMap[columnName].buckets == IndexAll(map[], old(CellsAt(rows, idx)), rows)))
    {
      if columnName in indexMap {
        return Ok(());
      }
      var idx := ColumnIndex(metaData.Snapshot(), columnName);
      if idx.Err? {
        return Err(idx.error);
      }
      var rows := AllRows();
      var built := BuildIndex(columnName, idx.value, rows);
      if built.Err? {
        return Err(built.error);
      }
      var index := built.value;
      assert NamedIndexes(indexMap[columnName := index]);
      indexMap := indexMap[columnName := index];
      return Ok(());
    }

    /** A new index over column idx filled with the rows, in order. */
    static method BuildIndex(columnName: string, idx: nat, rows: seq<Row>) returns (r: Result<NonUniqueIndex>)
      ensures r.Ok? <==> old(Covers(rows, idx))
      ensures r.Ok? ==> (fresh(r.value) && r.value.columnName == columnName && r.value.columnIndex == idx &&
        r.value.buckets == IndexAll(map[], old(CellsAt(rows, idx)), rows))
    {
      FirstShortCovers(rows, idx);
      var created := NonUniqueIndex.Create(Some(columnName), idx);
      var index := created.value;
      assert FirstShort(rows, idx) == old(FirstShort(rows, idx));
      assert Covers(rows, idx) ==> CellsAt(rows[..|rows|], idx) == old(CellsAt(rows[..|rows|], idx));
      var indexed := index.Index(Some(rows));
      if indexed.Err? {
        return Err(indexed.error);
      }
      assert rows[..|rows|] == rows;
      return Ok(index);
    }

    /**
     * removeAll: an empty map gives 0; otherwise every key of a copy of the
     * key set is removed in turn, the count is the former size, and the
     * index update that follows fails as soon as an index is registered.
     */
    method RemoveAll() returns (r: Result<int>)
      requires Valid()
      modifies this
      ensures Valid() && indexMap == old(indexMap) && identityPK == old(identityPK)
      ensures old(|keys|) == 0 ==> r == Ok(0) && TableOf() == old(TableOf())
      ensures old(|keys|) > 0 ==>
        keys == [] && store == map[] && r == (if indexMap == map[] then Ok(old(|keys|)) else Err(ClassCast))
    {
      if Size() < 1 {
        return Ok(0);
      }
      var keylist := keys;
      var t := RemoveKeys(TableOf(), keylist);
      RemovedEverything(TableOf());
      keys, store := t.keys, t.store;
      var count := |keylist|;
      var u := UpdateIndices();
      if u.Err? {
        return Err(u.error);
      }
      return Ok(count);
    }

    /**
     * setColumnValue: a null or blank name fails, then an unknown name; both
     * before anything is written. Otherwise the column's cell of every stored
     * row is set in map order; a row too short for the column stops the loop
     * with the rows before it written. No other cell changes.
     */
    method SetColumnValue(columnName: Option<string>, value: Value) returns (r: Result<()>)
      requires Valid()
      modifies set x | x in store.Values :: x.data
      ensures columnName.None? || IsBlank(columnName.value) ==> r.Err? && r.error.NullArgument?
      ensures columnName.Some? && !IsBlank(columnName.value) && columnName.value !in metaData.columnNames ==>
        r == Err(UnknownColumn(columnName.value))
      ensures r.Err? && !(columnName.Some? && !IsBlank(columnName.value) && columnName.value in metaData.columnNames) ==>
        forall x :: x in store.Values ==> x.data[..] == old(x.data[..])
      ensures columnName.Some? && !IsBlank(columnName.value) && columnName.value in metaData.columnNames ==>
        var idx := ColumnIndex(metaData.Snapshot(), columnName.value).value;
        (r.Ok? <==> forall x :: x in store.Values ==> idx < x.data.Length) &&
        (r.Ok? ==> forall x :: x in store.Values ==> x.data[idx] == value) &&
        (forall x, p :: x in store.Values && 0 <= p < x.data.Length && p != idx ==> x.data[p] == old(x.data[p]))
    {
      if columnName.None? || IsBlank(columnName.value) {
        return Err(NullArgument("Column name cannot be null or empty."));
      }
      var idx := ColumnIndex(metaData.Snapshot(), columnName.value);
      if idx.Err? {
        return Err(idx.error);
      }
      var rows := AllRows();
      r := WriteColumn(rows, idx.value, value);
    }

    /** The write loop of setColumnValue, over the rows in map order. */
    static method WriteColumn(rows: seq<Row>, column: nat, value: Value) returns (r: Result<()>)
      modifies set x | x in rows :: x.data
      ensures r.Ok? <==> forall i :: 0 <= i < |rows| ==> column < rows[i].data.Length
      ensures r.Ok? ==> forall i :: 0 <= i < |rows| ==> rows[i].data[column] == value
      ensures forall i, p :: 0 <= i < |rows| && 0 <= p < rows[i].data.Length && p != column ==>
        rows[i].data[p] == old(rows[i].data[p])
    {
      var i := 0;
      while i < |rows|
        invariant 0 <= i <= |rows|
        invariant forall k :: 0 <= k < i ==> column < rows[k].data.Length && rows[k].data[column] == value
        invariant forall k, p :: 0 <= k < |rows| && 0 <= p < rows[k].data.Length && p != column ==>
          rows[k].data[p] == old(rows[k].data[p])
      {
        var w := rows[i].SetValue(column, value);
        if w.Err? {
          return Err(w.error);
        }
        i := i + 1;
      }
      return Ok(());
    }

    /** clearColumn: setColumnValue with null. */
    method ClearColumn(columnName: Option<string>) returns (r: Result<()>)
      requires Valid()
      modifies set x | x in store.Values :: x.data
      ensures columnName.None? || IsBlank(columnName.value) ==> r.Err? && r.error.NullArgument?
      ensures columnName.Some? && !IsBlank(columnName.value) && columnName.value !in metaData.columnNames ==>
        r == Err(UnknownColumn(columnName.value))
      ensures columnName.Some? && !IsBlank(columnName.value) && columnName.value in metaData.columnNames ==>
        var idx := ColumnIndex(metaData.Snapshot(), columnName.value).value;
        (r.Ok? <==> forall x :: x in store.Values ==> idx < x.data.Length) &&
        (r.Ok? ==> forall x :: x in store.Values ==> x.data[idx] == Null) &&
        (forall x, p :: x in store.Values && 0 <= p < x.data.Length && p != idx ==> x.data[p] == old(x.data[p]))
      ensures r.Err? && !(columnName.Some? && !IsBlank(columnName.value) && columnName.value in metaData.columnNames) ==>
        forall x :: x in store.Values ==> x.data[..] == old(x.data[..])
    {
      r := SetColumnValue(columnName, Null);
    }

    /**
     * addSingleRow: a new row adopts the caller's array (a null array
     * fails), then it is added as a batch of one with the index update.
     */
    method AddSingleRow(oRow: array?<Value>) returns (r: Result<int>, ghost row: Row?)
      requires Valid()
      modifies this
      ensures Valid() && indexMap == old(indexMap)
      ensures oRow == null ==> r.Err? && r.error.NullArgument? && TableOf() == old(TableOf())
      ensures oRow != null && oRow.Length != |metaData.columnNames| ==> r == Err(CorruptRow) && TableOf() == old(TableOf())
      ensures oRow != null && oRow.Length == |metaData.columnNames| ==>
        row != null && fresh(row) && row.data == oRow &&
        var s := metaData.Snapshot();
        var key := KeyOf(s, oRow[..], Bumped(old(identityPK), 1), show);
        TableOf() == Filed(old(TableOf()), s, [row], [oRow[..]], show) &&
        key in store && store[key] == row &&
        r == (if indexMap == map[] then Ok(1) else Err(ClassCast))
    {
      var cRow := new Row.Empty();
      row := cRow;
      var adopted := cRow.SetRawData(oRow);
      if adopted.Err? {
        return Err(adopted.error), row;
      }
      r := AddOne(cRow);
    }

    /** addData of a batch of one row, with the index update. */
    method AddOne(cRow: Row) returns (r: Result<int>)
      requires Valid()
      modifies this
      ensures Valid() && indexMap == old(indexMap)
      ensures cRow.data.Length != |metaData.columnNames| ==> r == Err(CorruptRow) && TableOf() == old(TableOf())
      ensures cRow.data.Length == |metaData.columnNames| ==>
        var s := metaData.Snapshot();
        var key := KeyOf(s, cRow.data[..], Bumped(old(identityPK), 1), show);
        TableOf() == Filed(old(TableOf()), s, [cRow], [cRow.data[..]], show) &&
        key in store && store[key] == cRow &&
        r == (if indexMap == map[] then Ok(1) else Err(ClassCast))
    {
      AddOneShape(TableOf(), cRow);
      r := AddRows(Some([cRow]), true);
    }

    /** What addData does with a batch of the one row cRow, on the table t. */
    lemma AddOneShape(t: Table, cRow: Row)
      requires Valid()
      ensures cRow.data.Length != |metaData.columnNames| ==> AfterAdd(t, [cRow]) == t && AddOutcome([cRow], true) == Err(CorruptRow)
      ensures cRow.data.Length == |metaData.columnNames| ==>
        var s := metaData.Snapshot();
        var key := KeyOf(s, cRow.data[..], Bumped(t.identity, 1), show);
        AfterAdd(t, [cRow]) == Filed(t, s, [cRow], [cRow.data[..]], show) &&
        key in AfterAdd(t, [cRow]).store && AfterAdd(t, [cRow]).store[key] == cRow &&
        AddOutcome([cRow], true) == (if indexMap == map[] then Ok(1) else Err(ClassCast))
    {
      if cRow.data.Length == |metaData.columnNames| {
        assert NonNull([cRow]) == [cRow] && RowCells([cRow]) == [cRow.data[..]];
        FiledOne(t, metaData.Snapshot(), cRow, cRow.data[..], show);
      }
    }

    /**
     * addData(container, updateIndices): the other container's schema must
     * equal this one's (CRowMetaData.equals); then all its rows, in its map
     * order, are added as one batch.
     */
    method AddContainer(other: CacheContainer?, updateIndices: bool) returns (r: Result<int>)
      requires Valid()
      requires other != null ==> other.Valid()
      modifies this
      ensures Valid() && indexMap == old(indexMap)
      ensures other == null ==> r == Err(NullPointer) && TableOf() == old(TableOf())
      ensures other != null ==>
        var same := MetaEquals(old(metaData.Snapshot()), Some(old(other.metaData.Snapshot())));
        (same != Ok(true) ==> r.Err? && TableOf() == old(TableOf())) &&
        (same.Err? ==> r == Err(same.error)) &&
        (same == Ok(true) ==> (r == old(AddOutcome(other.AllRows(), updateIndices)) &&
          TableOf() == old(AfterAdd(TableOf(), other.AllRows()))))
    {
      if other == null {
        return Err(NullPointer);
      }
      var same := MetaEquals(metaData.Snapshot(), Some(other.metaData.Snapshot()));
      if same.Err? {
        return Err(same.error);
      }
      if !same.value {
        return Err(SchemaMismatch);
      }
      var rows := other.AllRows();
      r := AddRows(Some(rows), updateIndices);
    }

    /**
     * removeData(filterClause, updateIndices): a null clause or one without
     * filters removes nothing; otherwise the rows get(clause) selects are
     * keyed again with createPrimaryKey and removed one by one; the count is
     * the number of rows selected, and the index update (asked for and with
     * something selected) fails as soon as an index is registered.
     */
    method RemoveData(clause: Clause?, updateIndices: bool) returns (r: Result<int>)
      requires Valid()
      requires clause != null ==> clause.Valid()
      modifies this, clause, if clause == null then [] else clause.filterList
      ensures Valid() && indexMap == old(indexMap)
      ensures clause == null || old(clause.Size()) < 1 ==> r == Ok(0) && TableOf() == old(TableOf())
      ensures clause != null && old(clause.Size()) >= 1 ==>
        var l := old(Snapshot());
        var p := old(PlanOf(clause.primaryKeyFilter, metaData.primaryKeyColumns, clause.filterList, clause.Planned(), l.indexes));
        var q := Query(PkKind(p.promoted), p.rec, Some(l), old(AllRows()), old(Probes(p.list)), metaData.Snapshot(),
                       None, true, Reach(l));
        (p.result.Err? || q.Err? ==> r.Err? && TableOf() == old(TableOf())) &&
        (p.result.Ok? && q.Ok? ==>
          Removal(TableOf(), r) ==
          Removed(old(TableOf()), metaData.Snapshot(), RowCells(q.value), show, updateIndices, indexMap != map[]))
    {
      if clause == null || clause.Size() < 1 {
        return Ok(0);
      }
      r := RemoveSelected(clause, updateIndices);
    }

    /**
     * removeData(columnName, values, updateIndices): a null or empty value
     * list removes nothing; otherwise one equality filter on the column in a
     * fresh clause (a null column name fails), then removeData(clause, ...).
     */
    method RemoveByColumn(columnName: Option<string>, values: Option<seq<Value>>, updateIndices: bool)
      returns (r: Result<int>, ghost f: Filter?)
      requires Valid()
      modifies this
      ensures Valid() && indexMap == old(indexMap)
      ensures values.None? || |values.value| < 1 ==> r == Ok(0) && TableOf() == old(TableOf())
      ensures values.Some? && |values.value| >= 1 && columnName.None? ==>
        r.Err? && r.error.NullArgument? && TableOf() == old(TableOf())
      ensures columnName.Some? && values.Some? && |values.value| >= 1 ==>
        f != null && fresh(f) && f.columnName == columnName.value && f.kind == EqualsKind(values.value, false) &&
        var l := old(Snapshot());
        var p := PlanOf(null, metaData.primaryKeyColumns, [f], Recorded(map[], []), l.indexes);
        var q := Query(PkKind(p.promoted), p.rec, Some(l), old(AllRows()),
                       if p.list == [] then [] else [Probe(f.kind, -1, f.columnName)],
                       metaData.Snapshot(), None, true, Reach(l));
        (p.result.Err? || q.Err? ==> r.Err? && TableOf() == old(TableOf())) &&
        (p.result.Ok? && q.Ok? ==>
          Removal(TableOf(), r) ==
          Removed(old(TableOf()), metaData.Snapshot(), RowCells(q.value), show, updateIndices, indexMap != map[]))
    {
      if values.None? || |values.value| < 1 {
        return Ok(0), null;
      }
      ghost var l := Snapshot();
      ghost var all := AllRows();
      ghost var t0 := TableOf();
      var made := Filter.CreateEquals(columnName, values, false);
      if made.Err? {
        return Err(made.error), null;
      }
      f := made.value;
      assert Valid() && Snapshot() == l && AllRows() == all && TableOf() == t0;
      ghost var p := PlanOf(null, metaData.primaryKeyColumns, [f], Recorded(map[], []), l.indexes);
      ghost var ps := if p.list == [] then [] else [Probe(f.kind, -1, f.columnName)];
      OneFilterList(f, metaData.primaryKeyColumns, l.indexes);
      assert Probes(p.list) == ps;
      r := RemoveFilter(made.value, updateIndices, p, l, all, ps, t0);
    }

    /** removeData(clause, ...) on a fresh clause holding the one new filter f, whose plan p and probes ps are known. */
    method RemoveFilter(f: Filter, updateIndices: bool,
                        ghost p: Planning, ghost l: Lookup, ghost all: seq<Row>, ghost ps: seq<Probe>,
                        ghost t0: Table) returns (r: Result<int>)
      requires Valid() && l == Snapshot() && all == AllRows() && t0 == TableOf() && f.columnIndex == -1
      requires p == PlanOf(null, metaData.primaryKeyColumns, [f], Recorded(map[], []), l.indexes)
      requires ps == Probes(p.list)
      modifies this, f
      ensures Valid() && indexMap == old(indexMap)
      ensures var q := Query(PkKind(p.promoted), p.rec, Some(l), all, ps, metaData.Snapshot(), None, true, Reach(l));
        (p.result.Err? || q.Err? ==> r.Err? && TableOf() == t0) &&
        (p.result.Ok? && q.Ok? ==>
          Removal(TableOf(), r) ==
          Removed(t0, metaData.Snapshot(), RowCells(q.value), show, updateIndices, indexMap != map[]))
    {
      var clause := OneFilterClause(f);
      assert Valid() && Snapshot() == l && AllRows() == all && TableOf() == t0 && Probes(p.list) == ps;
      assert p == PlanOf(clause.primaryKeyFilter, metaData.primaryKeyColumns, clause.filterList, clause.Planned(), l.indexes);
      r := RemoveAsked(clause, updateIndices, p, l, all, ps, t0);
    }

    /** removeData(clause, ...) on a fresh clause holding filters whose plan, lookup, rows and probes are known. */
    method RemoveAsked(clause: Clause, updateIndices: bool,
                       ghost p: Planning, ghost l: Lookup, ghost all: seq<Row>, ghost ps: seq<Probe>,
                       ghost t0: Table) returns (r: Result<int>)
      requires Valid() && clause.Valid() && clause.Size() >= 1
      requires l == Snapshot() && all == AllRows() && ps == Probes(p.list) && t0 == TableOf()
      requires p == PlanOf(clause.primaryKeyFilter, metaData.primaryKeyColumns, clause.filterList, clause.Planned(), l.indexes)
      modifies this, clause, clause.filterList
      ensures Valid() && indexMap == old(indexMap)
      ensures var q := Query(PkKind(p.promoted), p.rec, Some(l), all, ps, metaData.Snapshot(), None, true, Reach(l));
        (p.result.Err? || q.Err? ==> r.Err? && TableOf() == t0) &&
        (p.result.Ok? && q.Ok? ==>
          Removal(TableOf(), r) ==
          Removed(t0, metaData.Snapshot(), RowCells(q.value), show, updateIndices, indexMap != map[]))
    {
      r := RemoveData(clause, updateIndices);
    }

    /**
     * What merge may have changed in the cell at position p: the source and
     * the join columns are given, the source has rows and the destination a
     * key array, and p is one of the columns merge writes.
     */
    ghost predicate MayWrite(mergeFrom: RowSet?, joinColumns: Option<seq<string>>, p: nat)
      requires Valid()
      requires mergeFrom != null ==> mergeFrom.metaData.Valid()
      reads this, metaData, mergeFrom, if mergeFrom == null then {} else {mergeFrom.metaData}
    {
      mergeFrom != null && joinColumns.Some? && |joinColumns.value| >= 1 && |mergeFrom.list| >= 1 &&
      metaData.primaryKeyColumns.Some? &&
      p in Overwritable(metaData.Snapshot(), mergeFrom.metaData.Snapshot(), joinColumns.value)
    }

    /**
     * merge(mergeFrom, joinColumns): a null row set or a null or empty join
     * list fails; an empty row set merges nothing; a missing key array fails.
     * Otherwise, for each source row in turn, the destination rows equal to
     * it on every join column are fetched with get, and each of them gets the
     * source row's values for the columns both sides have with the same type,
     * except the destination's key columns and the join columns. Only those
     * cells of the destination's rows can change.
     */
    method Merge(mergeFrom: RowSet?, joinColumns: Option<seq<string>>) returns (r: Result<int>)
      requires Valid()
      requires mergeFrom != null ==> mergeFrom.Valid() && mergeFrom.metaData.Valid()
      modifies mergeFrom, set x | x in Reach(Snapshot()) :: x.data
      ensures Valid()
      ensures mergeFrom == null ==> r.Err? && r.error.NullArgument?
      ensures mergeFrom != null ==> mergeFrom.Valid() && mergeFrom.list == old(mergeFrom.list)
      ensures mergeFrom != null && (joinColumns.None? || |joinColumns.value| < 1) ==> r.Err? && r.error.NullArgument?
      ensures mergeFrom != null && joinColumns.Some? && |joinColumns.value| >= 1 && |mergeFrom.list| < 1 ==> r == Ok(0)
      ensures mergeFrom != null && joinColumns.Some? && |joinColumns.value| >= 1 && |mergeFrom.list| >= 1 ==>
        (metaData.primaryKeyColumns.None? ==> r == Err(NullPointer))
      ensures r.Ok? ==> r.value >= 0
      ensures forall x, p :: x in old(Reach(Snapshot())) && 0 <= p < x.data.Length && x.data[p] != old(x.data[p]) ==>
        MayWrite(mergeFrom, joinColumns, p)
    {
      ghost var pool := Reach(Snapshot());
      ghost var before := PoolCells(pool);
      if mergeFrom == null {
        return Err(NullArgument("Data rowset to merge cannot be null."));
      }
      if joinColumns.None? || |joinColumns.value| < 1 {
        return Err(NullArgument("Must join on at least one column."));
      }
      if mergeFrom.Size() < 1 {
        return Ok(0);
      }
      if metaData.primaryKeyColumns.None? {
        return Err(NullPointer);
      }
      var join := joinColumns.value;
      ghost var w := Overwritable(metaData.Snapshot(), mergeFrom.metaData.Snapshot(), join);
      r := MergeJoined(mergeFrom, join, w, pool);
    }

    /** merge once the arguments are checked: the loop over the source rows from a reset cursor. */
    method MergeJoined(mergeFrom: RowSet, join: seq<string>, ghost w: set<nat>, ghost pool: set<Row>) returns (r: Result<int>)
      requires Merging(mergeFrom, join, w, pool) && mergeFrom.Valid()
      modifies mergeFrom, set x | x in pool :: x.data
      ensures mergeFrom.Valid() && mergeFrom.list == old(mergeFrom.list)
      ensures r.Ok? ==> r.value >= 0
      ensures forall x: Row, p: int :: x in pool && 0 <= p < x.data.Length && x.data[p] != old(x.data[p]) ==> p in w
    {
      ghost var before := PoolCells(pool);
      mergeFrom.Reset();
      assert PoolCells(pool) == before;
      AgreeRefl(before, w);
      r := MergeRows(mergeFrom, join, w, pool, before);
      forall x: Row, p: int | x in pool && 0 <= p < x.data.Length && x.data[p] != old(x.data[p])
        ensures p in w
      {
        assert PoolCells(pool)[x][p] == x.data[p];
      }
    }

    /**
     * merge(mergeFrom, joinColumns) for a container: a null container fails;
     * otherwise its rows are listed with getAll() (sorted by its key columns)
     * and that row set is merged. Only the cells merge may write change.
     */
    method MergeContainer(other: CacheContainer?, joinColumns: Option<seq<string>>) returns (r: Result<int>)
      requires Valid()
      requires other != null ==> other.Valid()
      modifies set x | x in Reach(Snapshot()) :: x.data
      ensures Valid()
      ensures other == null ==> r.Err? && r.error.NullArgument?
      ensures other != null ==>
        var l := old(Listing(other.metaData.Snapshot(), other.AllRows(), other.metaData.primaryKeyColumns, true));
        (l.Err? ==> r == Err(l.error)) &&
        (l.Ok? && (joinColumns.None? || |joinColumns.value| < 1) ==> r.Err? && r.error.NullArgument?) &&
        (l.Ok? && joinColumns.Some? && |joinColumns.value| >= 1 && old(|other.keys|) < 1 ==> r == Ok(0)) &&
        (l.Ok? && joinColumns.Some? && |joinColumns.value| >= 1 && old(|other.keys|) >= 1 ==>
          (metaData.primaryKeyColumns.None? ==> r == Err(NullPointer)))
      ensures r.Ok? ==> r.value >= 0
      ensures forall x: Row, p: int :: x in old(Reach(Snapshot())) && 0 <= p < x.data.Length && x.data[p] != old(x.data[p]) ==>
        other != null && joinColumns.Some? && |joinColumns.value| >= 1 && old(|other.keys|) >= 1 &&
        metaData.primaryKeyColumns.Some?
      ensures forall x: Row, p: int :: x in old(Reach(Snapshot())) && 0 <= p < x.data.Length && x.data[p] != old(x.data[p]) ==>
        other != null && joinColumns.Some? &&
        p in Overwritable(metaData.Snapshot(), other.metaData.Snapshot(), joinColumns.value)
    {
      if other == null {
        return Err(NullArgument("Data container to merge cannot be null."));
      }
      ghost var pool := Reach(Snapshot());
      var fromRowSet := other.GetAllDefault();
      if fromRowSet.Err? {
        return Err(fromRowSet.error);
      }
      r := MergeListed(fromRowSet.value, other, joinColumns, old(|other.keys|), pool);
    }

    /** The second half of merge(container, joinColumns): merging the listed rows of other. */
    method MergeListed(rs: RowSet, other: CacheContainer, joinColumns: Option<seq<string>>, ghost n: nat, ghost pool: set<Row>)
      returns (r: Result<int>)
      requires Valid() && other.Valid() && pool == Reach(Snapshot())
      requires rs.Valid() && rs.metaData == other.metaData && |rs.list| == n
      modifies rs, set x | x in pool :: x.data
      ensures Valid()
      ensures joinColumns.None? || |joinColumns.value| < 1 ==> r.Err? && r.error.NullArgument?
      ensures joinColumns.Some? && |joinColumns.value| >= 1 && n < 1 ==> r == Ok(0)
      ensures joinColumns.Some? && |joinColumns.value| >= 1 && n >= 1 ==>
        (metaData.primaryKeyColumns.None? ==> r == Err(NullPointer))
      ensures r.Ok? ==> r.value >= 0
      ensures forall x: Row, p: int :: x in pool && 0 <= p < x.data.Length && x.data[p] != old(x.data[p]) ==>
        joinColumns.Some? && |joinColumns.value| >= 1 && n >= 1 && metaData.primaryKeyColumns.Some?
      ensures forall x: Row, p: int :: x in pool && 0 <= p < x.data.Length && x.data[p] != old(x.data[p]) ==>
        joinColumns.Some? && p in Overwritable(metaData.Snapshot(), other.metaData.Snapshot(), joinColumns.value)
    {
      r := Merge(rs, joinColumns);
      forall x: Row, p: int | x in pool && 0 <= p < x.data.Length && x.data[p] != old(x.data[p])
        ensures joinColumns.Some? && |joinColumns.value| >= 1 && n >= 1 && metaData.primaryKeyColumns.Some?
      {
        assert MayWrite(rs, joinColumns, p);
      }
      forall x: Row, p: int | x in pool && 0 <= p < x.data.Length && x.data[p] != old(x.data[p])
        ensures joinColumns.Some? && p in Overwritable(metaData.Snapshot(), other.metaData.Snapshot(), joinColumns.value)
      {
        assert MayWrite(rs, joinColumns, p);
      }
    }

    /**
     * What holds throughout merge's loop: the container and both schemas are
     * well formed, pool is every row the container reaches, the join list is
     * not empty, the key array is set and w is the set of columns merge may write.
     */
    ghost predicate Merging(mergeFrom: RowSet, join: seq<string>, w: set<nat>, pool: set<Row>)
      reads this, metaData, indexMap.Values, mergeFrom.metaData
    {
      Valid() && pool == Reach(Snapshot()) && |join| >= 1 &&
      mergeFrom.metaData.Valid() && metaData.primaryKeyColumns.Some? &&
      w == Overwritable(metaData.Snapshot(), mergeFrom.metaData.Snapshot(), join)
    }

    /** The loop of merge over the source rows, from a reset cursor: the sum of the rows matched. */
    method MergeRows(mergeFrom: RowSet, join: seq<string>, ghost w: set<nat>, ghost pool: set<Row>, ghost before: map<Row, seq<Value>>)
      returns (r: Result<int>)
      requires Merging(mergeFrom, join, w, pool) && mergeFrom.Valid()
      requires Agree(PoolCells(pool), before, w)
      modifies mergeFrom, set x | x in pool :: x.data
      ensures mergeFrom.Valid() && mergeFrom.list == old(mergeFrom.list)
      ensures r.Ok? ==> r.value >= 0
      ensures Agree(PoolCells(pool), before, w)
    {
      var nonOverwrites := metaData.primaryKeyColumns.value + join;
      var rowsUpdated := 0;
      while true
        invariant mergeFrom.Valid() && mergeFrom.list == old(mergeFrom.list)
        invariant rowsUpdated >= 0
        invariant Agree(PoolCells(pool), before, w)
        decreases |mergeFrom.list| + 1 - mergeFrom.cursor
      {
        var more, n := MergeStep(mergeFrom, join, nonOverwrites, w, pool, before);
        if !more {
          break;
        }
        if n.Err? {
          return Err(n.error);
        }
        rowsUpdated := rowsUpdated + n.value;
      }
      return Ok(rowsUpdated);
    }

    /** One turn of merge's loop: advance the source rowset and, when it lands on a row, merge that row. */
    method MergeStep(mergeFrom: RowSet, join: seq<string>, nonOverwrites: seq<string>,
                     ghost w: set<nat>, ghost pool: set<Row>, ghost before: map<Row, seq<Value>>)
      returns (more: bool, r: Result<int>)
      requires Merging(mergeFrom, join, w, pool) && mergeFrom.Valid()
      requires nonOverwrites == metaData.primaryKeyColumns.value + join
      requires Agree(PoolCells(pool), before, w)
      modifies mergeFrom, set x | x in pool :: x.data
      ensures mergeFrom.Valid() && mergeFrom.list == old(mergeFrom.list)
      ensures more ==> old(mergeFrom.cursor) < mergeFrom.cursor
      ensures r.Ok? ==> r.value >= 0
      ensures Agree(PoolCells(pool), before, w)
    {
      ghost var mid := PoolCells(pool);
      more := mergeFrom.Next();
      assert PoolCells(pool) == mid;
      if !more {
        return more, Ok(0);
      }
      assert Merging(mergeFrom, join, w, pool);
      r := MergeRow(mergeFrom, join, nonOverwrites, w, pool);
      AgreeTrans(PoolCells(pool), mid, before, w);
    }

    /**
     * One source row of merge: a clause of equality filters, one per join
     * column, on the source row's values; get(clause, null, false); then the
     * matched rows are overwritten. The result is the number of rows matched.
     */
    method MergeRow(mergeFrom: RowSet, join: seq<string>, nonOverwrites: seq<string>, ghost w: set<nat>, ghost pool: set<Row>)
      returns (r: Result<int>)
      requires Merging(mergeFrom, join, w, pool)
      requires mergeFrom.Valid() && 1 <= mergeFrom.cursor <= |mergeFrom.list|
      requires nonOverwrites == metaData.primaryKeyColumns.value + join
      modifies set x | x in pool :: x.data
      ensures r.Ok? ==> r.value >= 0
      ensures Agree(PoolCells(pool), old(PoolCells(pool)), w)
    {
      var clause := OneClausePerJoin(mergeFrom, join);
      if clause.Err? {
        return Err(clause.error);
      }
      r := MatchAndCopy(clause.value, mergeFrom, join, nonOverwrites, w, pool);
    }

    /** get(clause, null, false) for one source row, then the copy into every matched row. */
    method MatchAndCopy(clause: Clause, mergeFrom: RowSet, join: seq<string>, nonOverwrites: seq<string>,
                        ghost w: set<nat>, ghost pool: set<Row>)
      returns (r: Result<int>)
      requires Valid() && pool == Reach(Snapshot())
      requires clause.Valid() && clause.Size() >= 1
      requires mergeFrom.Valid() && mergeFrom.metaData.Valid() && 1 <= mergeFrom.cursor <= |mergeFrom.list|
      requires metaData.primaryKeyColumns.Some? && nonOverwrites == metaData.primaryKeyColumns.value + join
      requires w == Overwritable(metaData.Snapshot(), mergeFrom.metaData.Snapshot(), join)
      modifies clause, clause.filterList, set x | x in pool :: x.data
      ensures r.Ok? ==> r.value >= 0
      ensures Agree(PoolCells(pool), old(PoolCells(pool)), w)
    {
      ghost var before := PoolCells(pool);
      var results := MatchedRows(clause, pool);
      assert PoolCells(pool) == before;
      if results.Err? {
        AgreeRefl(before, w);
        return Err(results.error);
      }
      assert Valid() && mergeFrom.Valid() && mergeFrom.metaData.Valid() && 1 <= mergeFrom.cursor <= |mergeFrom.list|;
      assert w == Overwritable(metaData.Snapshot(), mergeFrom.metaData.Snapshot(), join);
      r := CopyInto(results.value, mergeFrom, join, nonOverwrites, w, pool);
    }

    /** Matched, seen only as far as the copy needs it: fresh rows of the container. */
    method MatchedRows(clause: Clause, ghost pool: set<Row>) returns (r: Result<RowSet>)
      requires Valid() && pool == Reach(Snapshot())
      requires clause.Valid() && clause.Size() >= 1
      modifies clause, clause.filterList
      ensures r.Ok? ==> fresh(r.value) && r.value.Valid() && r.value.metaData == metaData
      ensures r.Ok? ==> forall x :: x in r.value.list ==> x in pool
    {
      r := Matched(clause, pool);
    }

    /** get(clause, null, false): the rows it returns are rows of the container. */
    method Matched(clause: Clause, ghost pool: set<Row>) returns (r: Result<RowSet>)
      requires Valid() && pool == Reach(Snapshot())
      requires clause.Valid() && clause.Size() >= 1
      modifies clause, clause.filterList
      ensures r.Ok? ==> fresh(r.value) && r.value.Valid() && r.value.metaData == metaData
      ensures r.Ok? ==> forall x :: x in r.value.list ==> x in pool
      ensures var l := old(Snapshot());
        var p := old(PlanOf(clause.primaryKeyFilter, metaData.primaryKeyColumns, clause.filterList, clause.Planned(), l.indexes));
        var q := Query(PkKind(p.promoted), p.rec, Some(l), old(AllRows()), old(Probes(p.list)), metaData.Snapshot(),
                       None, false, Reach(l));
        (r.Ok? <==> p.result.Ok? && q.Ok?) && (r.Ok? ==> r.value.list == q.value)
    {
      ghost var l := Snapshot();
      ghost var all := AllRows();
      ghost var p := PlanOf(clause.primaryKeyFilter, metaData.primaryKeyColumns, clause.filterList, clause.Planned(), l.indexes);
      ghost var ps := Probes(p.list);
      r := Ask(clause, None, false, p, l, all, ps);
      if r.Ok? {
        forall x | x in r.value.list
          ensures x in pool
        {
          QueryPasses(PkKind(p.promoted), p.rec, Some(l), all, ps, metaData.Snapshot(), None, false, Reach(l), x);
        }
      }
    }

    /**
     * The copy loop of merge over the matched rows: each of them gets the
     * current source row's values (see CopyRow). The result is the number of
     * rows matched.
     */
    method CopyInto(results: RowSet, mergeFrom: RowSet, join: seq<string>, nonOverwrites: seq<string>,
                    ghost w: set<nat>, ghost pool: set<Row>)
      returns (r: Result<int>)
      requires Valid() && results != mergeFrom
      requires results.Valid() && results.metaData == metaData && forall x :: x in results.list ==> x in pool
      requires mergeFrom.Valid() && mergeFrom.metaData.Valid() && 1 <= mergeFrom.cursor <= |mergeFrom.list|
      requires metaData.primaryKeyColumns.Some? && nonOverwrites == metaData.primaryKeyColumns.value + join
      requires w == Overwritable(metaData.Snapshot(), mergeFrom.metaData.Snapshot(), join)
      modifies results, set x | x in pool :: x.data
      ensures r.Ok? ==> r.value == |results.list|
      ensures Agree(PoolCells(pool), old(PoolCells(pool)), w)
    {
      ghost var before := PoolCells(pool);
      results.Reset();
      assert PoolCells(pool) == before;
      AgreeRefl(before, w);
      while true
        invariant results.Valid() && results.list == old(results.list)
        invariant Agree(PoolCells(pool), before, w)
        decreases |results.list| + 1 - results.cursor
      {
        ghost var mid := PoolCells(pool);
        var more, copied := CopyNext(results, mergeFrom, join, nonOverwrites, w, pool);
        AgreeTrans(PoolCells(pool), mid, before, w);
        if !more {
          break;
        }
        if copied.Err? {
          return Err(copied.error);
        }
      }
      return Ok(|results.list|);
    }

    /** One turn of merge's outer loop: next() on the matched rows, then CopyRow on the row reached. */
    method CopyNext(results: RowSet, mergeFrom: RowSet, join: seq<string>, nonOverwrites: seq<string>,
                    ghost w: set<nat>, ghost pool: set<Row>)
      returns (more: bool, r: Result<()>)
      requires Valid() && results != mergeFrom
      requires results.Valid() && results.metaData == metaData && forall x :: x in results.list ==> x in pool
      requires mergeFrom.Valid() && mergeFrom.metaData.Valid() && 1 <= mergeFrom.cursor <= |mergeFrom.list|
      requires metaData.primaryKeyColumns.Some? && nonOverwrites == metaData.primaryKeyColumns.value + join
      requires w == Overwritable(metaData.Snapshot(), mergeFrom.metaData.Snapshot(), join)
      modifies results, set x | x in pool :: x.data
      ensures results.Valid() && results.list == old(results.list)
      ensures more ==> results.cursor == old(results.cursor) + 1
      ensures !more ==> r.Ok?
      ensures Agree(PoolCells(pool), old(PoolCells(pool)), w)
    {
      ghost var before := PoolCells(pool);
      more := results.Next();
      assert PoolCells(pool) == before;
      AgreeRefl(before, w);
      if !more {
        return more, Ok(());
      }
      r := CopyRow(results, mergeFrom, join, nonOverwrites, w, pool);
    }

    /**
     * The inner loop of merge for one matched row: for every source column
     * not in nonOverwrites that the destination has with the same type, the
     * source row's value is written into the matched row.
     */
    method CopyRow(results: RowSet, mergeFrom: RowSet, join: seq<string>, nonOverwrites: seq<string>,
                   ghost w: set<nat>, ghost pool: set<Row>)
      returns (r: Result<()>)
      requires Valid() && results != mergeFrom
      requires results.metaData == metaData && 1 <= results.cursor <= |results.list|
      requires results.list[results.cursor - 1] in pool
      requires mergeFrom.metaData.Valid()
      requires metaData.primaryKeyColumns.Some? && nonOverwrites == metaData.primaryKeyColumns.value + join
      requires w == Overwritable(metaData.Snapshot(), mergeFrom.metaData.Snapshot(), join)
      modifies set x | x in pool :: x.data
      ensures Agree(PoolCells(pool), old(PoolCells(pool)), w)
    {
      ghost var before := PoolCells(pool);
      var dest := metaData.Snapshot();
      var src := mergeFrom.metaData.Snapshot();
      var fromColumnNames := src.columnNames;
      var i := 0;
      while i < |fromColumnNames|
        invariant 0 <= i <= |fromColumnNames|
        invariant Agree(PoolCells(pool), before, w)
      {
        ghost var mid := PoolCells(pool);
        r := CopyColumn(results, mergeFrom, fromColumnNames[i], join, nonOverwrites, dest, src, w, pool);
        AgreeTrans(PoolCells(pool), mid, before, w);
        if r.Err? {
          return;
        }
        i := i + 1;
      }
      return Ok(());
    }

    /** One column of that copy: written when it may be overwritten and the destination has it with the same type. */
    method CopyColumn(results: RowSet, mergeFrom: RowSet, name: string, join: seq<string>, nonOverwrites: seq<string>,
                      dest: Schema, src: Schema, ghost w: set<nat>, ghost pool: set<Row>)
      returns (r: Result<()>)
      requires Valid() && results != mergeFrom
      requires results.metaData == metaData && 1 <= results.cursor <= |results.list|
      requires results.list[results.cursor - 1] in pool
      requires mergeFrom.metaData.Valid() && dest == metaData.Snapshot() && src == mergeFrom.metaData.Snapshot()
      requires metaData.primaryKeyColumns.Some? && nonOverwrites == metaData.primaryKeyColumns.value + join
      requires w == Overwritable(dest, src, join)
      modifies set x | x in pool :: x.data
      ensures Agree(PoolCells(pool), old(PoolCells(pool)), w)
      ensures r.Ok? && name !in nonOverwrites && ContainsColumn(dest, Some(name)) && ColumnType(dest, name) == ColumnType(src, name) ==>
        name in src.columnNames && 1 <= mergeFrom.cursor <= |mergeFrom.list| &&
        var from := mergeFrom.list[mergeFrom.cursor - 1];
        var to := results.list[results.cursor - 1];
        var j := ColumnIndex(src, name).value;
        var idx := ColumnIndex(dest, name).value;
        j < from.data.Length && idx < to.data.Length && to.data[idx] == old(from.data[j])
    {
      ghost var before := PoolCells(pool);
      AgreeRefl(before, w);
      r := Ok(());
      if name !in nonOverwrites && ContainsColumn(dest, Some(name)) && ColumnType(dest, name) == ColumnType(src, name) {
        var fromObjVal := mergeFrom.GetObjectByName(name);
        if fromObjVal.Err? {
          return Err(fromObjVal.error);
        }
        var written := WriteCell(results, name, fromObjVal.value, pool);
        assert ColumnIndex(dest, name).value in w;
        AgreeWider(PoolCells(pool), before, {ColumnIndex(dest, name).value}, w);
        if written.Err? {
          return Err(written.error);
        }
      }
    }

    /** setValue(columnName, value) on the current matched row: at most the column's cell changes. */
    method WriteCell(results: RowSet, name: string, value: Value, ghost pool: set<Row>) returns (r: Result<()>)
      requires Valid() && results.metaData == metaData && name in metaData.columnNames
      requires 1 <= results.cursor <= |results.list| && results.list[results.cursor - 1] in pool
      modifies set x | x in pool :: x.data
      ensures Agree(PoolCells(pool), old(PoolCells(pool)), {ColumnIndex(metaData.Snapshot(), name).value})
      ensures var row := results.list[results.cursor - 1];
        var idx := ColumnIndex(metaData.Snapshot(), name).value;
        (r.Ok? <==> idx < row.data.Length) && (r.Ok? ==> row.data[idx] == value)
    {
      ghost var a := results.list[results.cursor - 1].data;
      r := results.SetValueByName(name, value);
      ghost var idx := ColumnIndex(metaData.Snapshot(), name).value;
      forall x | x in pool
        ensures |x.data[..]| == |old(x.data[..])|
        ensures forall p :: 0 <= p < x.data.Length && p != idx ==> x.data[p] == old(x.data[p])
      {
      }
    }

    /** removeData on a clause holding filters. */
    method RemoveSelected(clause: Clause, updateIndices: bool) returns (r: Result<int>)
      requires Valid() && clause.Valid() && clause.Size() >= 1
      modifies this, clause, clause.filterList
      ensures Valid() && indexMap == old(indexMap)
      ensures
        var l := old(Snapshot());
        var p := old(PlanOf(clause.primaryKeyFilter, metaData.primaryKeyColumns, clause.filterList, clause.Planned(), l.indexes));
        var q := Query(PkKind(p.promoted), p.rec, Some(l), old(AllRows()), old(Probes(p.list)), metaData.Snapshot(),
                       None, true, Reach(l));
        (p.result.Err? || q.Err? ==> r.Err? && TableOf() == old(TableOf())) &&
        (p.result.Ok? && q.Ok? ==>
          Removal(TableOf(), r) ==
          Removed(old(TableOf()), metaData.Snapshot(), RowCells(q.value), show, updateIndices, indexMap != map[]))
    {
      ghost var l := Snapshot();
      ghost var p := PlanOf(clause.primaryKeyFilter, metaData.primaryKeyColumns, clause.filterList, clause.Planned(), l.indexes);
      ghost var all := AllRows();
      ghost var ps := Probes(p.list);
      var got := Selection(clause);
      assert Valid();
      r := RemoveFound(got, updateIndices, p.result.Ok?, PkKind(p.promoted), p.rec, l, all, ps);
    }

    /**
     * The removing half of removeData: got is what the planned clause
     * selected, planned whether planning succeeded, and the query's pieces
     * are those of the clause.
     */
    method RemoveFound(got: Result<seq<Row>>, updateIndices: bool, ghost planned: bool,
                       ghost pk: Option<FilterKind>, ghost rec: Recorded, ghost l: Lookup, ghost all: seq<Row>, ghost ps: seq<Probe>)
      returns (r: Result<int>)
      requires Valid() && forall i :: 0 <= i < |all| ==> all[i] in Reach(l)
      requires var q := Query(pk, rec, Some(l), all, ps, metaData.Snapshot(), None, true, Reach(l));
        (got.Ok? <==> planned && q.Ok?) && (got.Ok? ==> got.value == q.value)
      modifies this
      ensures Valid() && indexMap == old(indexMap)
      ensures var q := Query(pk, rec, Some(l), all, ps, metaData.Snapshot(), None, true, Reach(l));
        (!planned || q.Err? ==> r.Err? && TableOf() == old(TableOf())) &&
        (planned && q.Ok? ==>
          Removal(TableOf(), r) == Removed(old(TableOf()), metaData.Snapshot(), RowCells(q.value), show, updateIndices, indexMap != map[]))
    {
      if got.Err? {
        return Err(got.error);
      }
      ghost var q := Query(pk, rec, Some(l), all, ps, metaData.Snapshot(), None, true, Reach(l));
      var cells := RowCells(got.value);
      assert cells == RowCells(q.value);
      r := Drop(cells, updateIndices);
      assert Removal(TableOf(), r) == Removed(old(TableOf()), metaData.Snapshot(), RowCells(q.value), show, updateIndices, indexMap != map[]);
      assert Query(pk, rec, Some(l), all, ps, metaData.Snapshot(), None, true, Reach(l)) == q;
    }

    /** get(clause, null, true) on a clause holding filters, as the rows it selects. */
    method Selection(clause: Clause) returns (r: Result<seq<Row>>)
      requires Valid() && clause.Valid() && clause.Size() >= 1
      modifies clause, clause.filterList
      ensures
        var l := old(Snapshot());
        var p := old(PlanOf(clause.primaryKeyFilter, metaData.primaryKeyColumns, clause.filterList, clause.Planned(), l.indexes));
        var q := Query(PkKind(p.promoted), p.rec, Some(l), old(AllRows()), old(Probes(p.list)), metaData.Snapshot(),
                       None, true, Reach(l));
        (r.Ok? <==> p.result.Ok? && q.Ok?) && (r.Ok? ==> r.value == q.value)
    {
      var got := Get(clause, None, true);
      if got.Err? {
        return Err(got.error);
      }
      return Ok(got.value.list);
    }

    /** What removeData does with the selected rows: each keyed again and removed, then the count. */
    method Drop(cells: seq<seq<Value>>, updateIndices: bool) returns (r: Result<int>)
      requires Valid()
      modifies this
      ensures Valid() && indexMap == old(indexMap)
      ensures Removal(TableOf(), r) == Removed(old(TableOf()), metaData.Snapshot(), cells, show, updateIndices, indexMap != map[])
    {
      var t, failure := RemoveRows(TableOf(), metaData.Snapshot(), cells, show);
      RemovedSpec(TableOf(), metaData.Snapshot(), cells, show, updateIndices, indexMap != map[]);
      keys, store := t.keys, t.store;
      r := Counted(failure, |cells|, updateIndices);
    }

    /** The result of removeData once the rows are out: the key failure, the index update's failure, or the count. */
    method Counted(failure: Option<Error>, count: nat, updateIndices: bool) returns (r: Result<int>)
      ensures r == (if failure.Some? then Err(failure.value)
                    else if updateIndices && count > 0 && indexMap != map[] then Err(ClassCast)
                    else Ok(count))
    {
      if failure.Some? {
        return Err(failure.value);
      }
      if updateIndices && count > 0 {
        var u := UpdateIndices();
        if u.Err? {
          return Err(u.error);
        }
      }
      return Ok(count);
    }

    /** The removal loop of removeData: each row keyed again, then removed; a key failure stops it. */
    static method RemoveRows(t0: Table, s: Schema, cells: seq<seq<Value>>, show: Value -> string) returns (t: Table, failure: Option<Error>)
      ensures var run := RowKeys(s, cells, show);
        t == RemoveAllKeys(t0, run.keys) && failure == run.failure
    {
      t, failure := t0, None;
      ghost var ks: seq<Value> := [];
      var i := 0;
      while i < |cells|
        invariant 0 <= i <= |cells|
        invariant RowKeys(s, cells[..i], show) == KeyRun(ks, None)
        invariant t == RemoveAllKeys(t0, ks)
      {
        assert cells[..i + 1][..i] == cells[..i];
        var key := CreatePrimaryKey(s, Some(cells[i]), show);
        if key.Err? {
          RowKeysStops(s, cells, i, show);
          return t, Some(key.error);
        }
        assert (ks + [key.value])[..|ks|] == ks;
        t := Table(Without(t.keys, key.value), t.store - {key.value}, t.identity);
        ks := ks + [key.value];
        i := i + 1;
      }
      assert cells[..i] == cells;
    }
  }
}
