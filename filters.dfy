/**
 * The row filters: EqualsFilter (with negation), RangeFilter, GEFilter,
 * LEFilter and DateRangeFilter over a common CDataFilter base that resolves
 * its column index lazily from a meta definition.
 *
 * What a filter decides about a row is a pure function (Eval) of the
 * filter's kind, the column index it reads and the row's cells; the class
 * Filter holds the mutable base-class fields (columnIndex, metaDefinition).
 */
module Filters {
  import opened Base
  import opened MetaData
  import opened DataRow

  /** The concrete filter classes and the parameters their constructors store. */
  datatype FilterKind =
    | EqualsKind(matchValues: seq<Value>, negated: bool)
    | RangeKind(lbound: real, ubound: real, inclusive: bool)
    | GEKind(lbound: real, inclusive: bool)
    | LEKind(ubound: real, inclusive: bool)
    | DateRangeKind(lower: Option<int>, upper: Option<int>)   // Date bounds as milliseconds; None = null

  /** The three filters that compare a Number's doubleValue against bounds. */
  predicate IsNumeric(kind: FilterKind) {
    kind.RangeKind? || kind.GEKind? || kind.LEKind?
  }

  /** The bound test of a numeric filter on a number x. */
  predicate WithinBounds(kind: FilterKind, x: real)
    requires IsNumeric(kind)
  {
    match kind
    case RangeKind(lb, ub, inclusive) => if inclusive then lb <= x <= ub else lb < x < ub
    case GEKind(lb, inclusive) => if inclusive then x >= lb else x > lb
    case LEKind(ub, inclusive) => if inclusive then x <= ub else x < ub
  }

  /** Some match value equals v (a null match value matches a null cell). */
  predicate AnyEquals(values: seq<Value>, v: Value) {
    exists k :: 0 <= k < |values| && values[k] == v
  }

  /**
   * doesMatch once the column index is known.
   * EqualsFilter: reading the cell fails when out of bounds (unless there is
   * nothing to compare with); otherwise some match value equals the cell,
   * flipped when negated.
   * Range/GE/LE: any failure, including a cell that is not a Number, is
   * wrapped as "could not match"; a null cell never matches.
   * DateRangeFilter: a bounds error escapes unwrapped, a non-Date cell is a
   * ClassCastException, a null cell never matches, both bounds give a closed
   * interval and with no bound at all the upper-bound compareTo throws.
   */
  function Eval(kind: FilterKind, columnIndex: int, cells: seq<Value>): (r: Result<bool>)
    ensures kind.EqualsKind? && |kind.matchValues| > 0 ==>
      (r.Ok? <==> 0 <= columnIndex < |cells|) &&
      (r.Ok? ==> (r.value <==> AnyEquals(kind.matchValues, cells[columnIndex]) != kind.negated)) &&
      (r.Err? ==> r.error == IndexOutOfBounds(|cells|, columnIndex))
    ensures IsNumeric(kind) ==>
      (r.Ok? <==> 0 <= columnIndex < |cells| && (cells[columnIndex] == Null || IsNumber(cells[columnIndex]))) &&
      (r.Ok? ==> (r.value <==> cells[columnIndex] != Null && WithinBounds(kind, RealValue(cells[columnIndex])))) &&
      (r.Err? ==> r.error.CouldNotMatch?)
    ensures kind.DateRangeKind? ==>
      (r.Ok? ==> 0 <= columnIndex < |cells| && (cells[columnIndex] == Null || IsDate(cells[columnIndex]))) &&
      (r.Ok? && r.value ==> (IsDate(cells[columnIndex]) &&
        (kind.lower.Some? ==> kind.lower.value <= cells[columnIndex].ms) &&
        (kind.upper.Some? ==> cells[columnIndex].ms <= kind.upper.value))) &&
      ((kind.lower.Some? || kind.upper.Some?) && 0 <= columnIndex < |cells| && IsDate(cells[columnIndex]) ==>
        r.Ok? && (r.value <==>
          (kind.lower.Some? ==> kind.lower.value <= cells[columnIndex].ms) &&
          (kind.upper.Some? ==> cells[columnIndex].ms <= kind.upper.value)))
  {
    match kind
    case EqualsKind(values, negated) =>
      if |values| == 0 then Ok(negated)
      else (
        match ValueAt(cells, columnIndex)
        case Err(e) => Err(e)
        case Ok(v) => Ok((v in values) != negated))
    case DateRangeKind(lower, upper) => (
      match ValueAt(cells, columnIndex)
      case Err(e) => Err(e)
      case Ok(v) =>
        if v == Null then Ok(false)
        else if !IsDate(v) then Err(ClassCast)
        else if lower.Some? && upper.Some? then Ok(lower.value <= v.ms && v.ms <= upper.value)
        else if lower.None? then (if upper.None? then Err(NullPointer) else Ok(v.ms <= upper.value))
        else Ok(lower.value <= v.ms))
    case RangeKind(_, _, _) | GEKind(_, _) | LEKind(_, _) =>
      match ValueAt(cells, columnIndex)
      case Err(e) => Err(CouldNotMatch(e))
      case Ok(v) =>
        if v == Null then Ok(false)
        else if !IsNumber(v) then Err(CouldNotMatch(ClassCast))
        else Ok(WithinBounds(kind, RealValue(v)))
  }

  /**
   * checkColumnIndexInitialized as a function of the base-class fields: a
   * resolved index (>= 0) is kept; otherwise a missing meta definition fails
   * and an unknown column name fails with getColumnIndex's error.
   */
  function ResolveIndex(columnIndex: int, meta: Option<Schema>, columnName: string): (r: Result<int>)
    ensures columnIndex >= 0 ==> r == Ok(columnIndex)
    ensures columnIndex < 0 ==>
      (r.Ok? <==> meta.Some? && columnName in meta.value.columnNames) &&
      (r.Ok? ==> 0 <= r.value < |meta.value.columnNames| && meta.value.columnNames[r.value] == columnName) &&
      (meta.Some? && r.Err? ==> r.error == UnknownColumn(columnName))
  {
    if columnIndex >= 0 then Ok(columnIndex)
    else if meta.None? then Err(NullArgument("Meta definition not initialized"))
    else
      match ColumnIndex(meta.value, columnName)
      case Err(e) => Err(e)
      case Ok(i) => Ok(i)
  }

  /** The index doesMatch reads: DateRangeFilter reads the stored field without resolving it. */
  function EffectiveIndex(kind: FilterKind, columnIndex: int, meta: Option<Schema>, columnName: string): Result<int>
  {
    if kind.DateRangeKind? then Ok(columnIndex) else ResolveIndex(columnIndex, meta, columnName)
  }

  /** doesMatch from the filter's fields and the row's cells. */
  function Matches(kind: FilterKind, columnIndex: int, meta: Option<Schema>, columnName: string, cells: seq<Value>): Result<bool>
  {
    match EffectiveIndex(kind, columnIndex, meta, columnName)
    case Err(e) => Err(e)
    case Ok(i) => Eval(kind, i, cells)
  }

  /** The column index field after a doesMatch call: set by a successful resolution, otherwise kept. */
  function IndexAfter(kind: FilterKind, columnIndex: int, meta: Option<Schema>, columnName: string): (r: int)
    ensures columnIndex >= 0 ==> r == columnIndex
  {
    if kind.DateRangeKind? then columnIndex
    else
      match ResolveIndex(columnIndex, meta, columnName)
      case Err(_) => columnIndex
      case Ok(i) => i
  }

  /** The meta definition a nullable reference stands for. */
  function MetaOf(m: RowMetaData?): Option<Schema>
    reads m
  {
    if m == null then None else Some(m.Snapshot())
  }

  // ---------------------------------------------------------------------
  // Properties of the pure model.

  /** A negated EqualsFilter decides exactly the opposite of the plain one, and fails exactly when it fails. */
  lemma NegationComplement(values: seq<Value>, columnIndex: int, cells: seq<Value>)
    ensures var plain := Eval(EqualsKind(values, false), columnIndex, cells);
      var negated := Eval(EqualsKind(values, true), columnIndex, cells);
      (plain.Ok? <==> negated.Ok?) && (plain.Ok? ==> negated.value == !plain.value) &&
      (plain.Err? ==> negated == plain)
  {
  }

  /** A null match value matches a null cell; a non-null one matches only an equal cell. */
  lemma NullMatchesNull(values: seq<Value>, columnIndex: int, cells: seq<Value>)
    requires Null in values && 0 <= columnIndex < |cells| && cells[columnIndex] == Null
    ensures Eval(EqualsKind(values, false), columnIndex, cells) == Ok(true)
  {
  }

  /** A null cell is never matched by a numeric or a date range filter. */
  lemma NullNeverInRange(kind: FilterKind, columnIndex: int, cells: seq<Value>)
    requires IsNumeric(kind) || kind.DateRangeKind?
    requires 0 <= columnIndex < |cells| && cells[columnIndex] == Null
    ensures Eval(kind, columnIndex, cells) == Ok(false)
  {
  }

  /** A cell that is not a Number makes a numeric filter fail instead of answering false. */
  lemma NonNumberFails(kind: FilterKind, columnIndex: int, cells: seq<Value>)
    requires IsNumeric(kind)
    requires 0 <= columnIndex < |cells| && cells[columnIndex] != Null && !IsNumber(cells[columnIndex])
    ensures Eval(kind, columnIndex, cells) == Err(CouldNotMatch(ClassCast))
  {
  }

  /** GE and LE are the two halves of a range: a value is in the range iff it passes both. */
  lemma RangeIsGEAndLE(lb: real, ub: real, inclusive: bool, columnIndex: int, cells: seq<Value>)
    ensures var range := Eval(RangeKind(lb, ub, inclusive), columnIndex, cells);
      var ge := Eval(GEKind(lb, inclusive), columnIndex, cells);
      var le := Eval(LEKind(ub, inclusive), columnIndex, cells);
      range.Ok? == ge.Ok? == le.Ok? &&
      (range.Ok? ==> (range.value <==> ge.value && le.value))
  {
  }

  /** Once the index is resolved it is never recomputed, whatever meta definition is set later. */
  lemma ResolvedIndexIsSticky(kind: FilterKind, columnIndex: int, m1: Option<Schema>, m2: Option<Schema>, columnName: string, cells: seq<Value>)
    requires columnIndex >= 0
    ensures Matches(kind, columnIndex, m1, columnName, cells) == Matches(kind, columnIndex, m2, columnName, cells)
    ensures IndexAfter(kind, columnIndex, m1, columnName) == columnIndex
  {
  }

  /** Resolving twice gives what resolving once did: the second call has nothing left to do. */
  lemma {:induction false} ResolutionIdempotent(kind: FilterKind, columnIndex: int, m: Option<Schema>, columnName: string, cells: seq<Value>)
    requires EffectiveIndex(kind, columnIndex, m, columnName).Ok?
    ensures var i := IndexAfter(kind, columnIndex, m, columnName);
      Matches(kind, i, m, columnName, cells) == Matches(kind, columnIndex, m, columnName, cells) &&
      IndexAfter(kind, i, m, columnName) == i
  {
    var i := IndexAfter(kind, columnIndex, m, columnName);
    if !kind.DateRangeKind? {
      assert i >= 0;
      assert ResolveIndex(i, m, columnName) == Ok(i);
      assert ResolveIndex(columnIndex, m, columnName) == Ok(i);
    }
  }

  /** A DateRangeFilter never resolves its index: a fresh one (index -1) fails with a bounds error. */
  lemma FreshDateRangeFails(lower: Option<int>, upper: Option<int>, m: Option<Schema>, columnName: string, cells: seq<Value>)
    ensures Matches(DateRangeKind(lower, upper), -1, m, columnName, cells) == Err(IndexOutOfBounds(|cells|, -1))
  {
  }

  /** With neither bound, a date cell makes the upper-bound compareTo throw. */
  lemma UnboundedDateRangeFails(columnIndex: int, cells: seq<Value>)
    requires 0 <= columnIndex < |cells| && IsDate(cells[columnIndex])
    ensures Eval(DateRangeKind(None, None), columnIndex, cells) == Err(NullPointer)
  {
  }

  /**
   * A filter object: the base-class fields columnName (final), columnIndex
   * (resolved lazily) and metaDefinition, plus the subclass's parameters.
   */
  class Filter {
    const columnName: string
    const kind: FilterKind
    var columnIndex: int
    var metaDefinition: RowMetaData?

    constructor Init(name: string, k: FilterKind)
      ensures columnName == name && kind == k && columnIndex == -1 && metaDefinition == null
    {
      columnName := name;
      kind := k;
      columnIndex := -1;
      metaDefinition := null;
    }

    /**
     * The CDataFilter constructor chain: a null column name fails first;
     * then EqualsFilter rejects an empty value list, RangeFilter a lower
     * bound not below the upper bound, and DateRangeFilter the same when
     * both bounds are given. GEFilter and LEFilter accept any bound.
     */
    static method Create(columnName: Option<string>, kind: FilterKind) returns (r: Result<Filter>)
      ensures r.Err? <==> (columnName.None? ||
        (kind.EqualsKind? && |kind.matchValues| < 1) ||
        (kind.RangeKind? && kind.lbound >= kind.ubound) ||
        (kind.DateRangeKind? && kind.lower.Some? && kind.upper.Some? && kind.lower.value >= kind.upper.value))
      ensures r.Err? && columnName.None? ==> r.error.NullArgument?
      ensures r.Err? && columnName.Some? && !kind.EqualsKind? ==> r.error == InvalidBounds
      ensures r.Err? && kind.EqualsKind? ==> r.error.NullArgument?
      ensures r.Ok? ==> (fresh(r.value) && r.value.columnName == columnName.value && r.value.kind == kind &&
        r.value.columnIndex == -1 && r.value.metaDefinition == null)
    {
      if columnName.None? {
        return Err(NullArgument("Column name to match upon cannot be null."));
      }
      match kind {
        case EqualsKind(values, _) =>
          if |values| < 1 {
            return Err(NullArgument("Values to match this column cannot be null."));
          }
        case RangeKind(lb, ub, _) =>
          if lb >= ub {
            return Err(InvalidBounds);
          }
        case DateRangeKind(lb, ub) =>
          if lb.Some? && ub.Some? && lb.value >= ub.value {
            return Err(InvalidBounds);
          }
        case _ =>
      }
      var f := new Filter.Init(columnName.value, kind);
      return Ok(f);
    }

    /** EqualsFilter(columnName, matchValues, negated): null values fail like empty ones. */
    static method CreateEquals(columnName: Option<string>, matchValues: Option<seq<Value>>, negated: bool) returns (r: Result<Filter>)
      ensures r.Err? <==> columnName.None? || matchValues.None? || |matchValues.value| < 1
      ensures r.Err? ==> r.error.NullArgument?
      ensures r.Ok? ==> (fresh(r.value) && r.value.columnName == columnName.value &&
        r.value.kind == EqualsKind(matchValues.value, negated) &&
        r.value.columnIndex == -1 && r.value.metaDefinition == null)
    {
      if columnName.None? {
        return Err(NullArgument("Column name to match upon cannot be null."));
      }
      if matchValues.None? {
        return Err(NullArgument("Values to match this column cannot be null."));
      }
      r := Create(columnName, EqualsKind(matchValues.value, negated));
    }

    /** getMatchValues: the array given to the constructor. */
    function MatchValues(): (vs: seq<Value>)
      requires kind.EqualsKind?
      ensures vs == kind.matchValues
    {
      kind.matchValues
    }

    function ColumnName(): (n: string) ensures n == columnName { columnName }
    function ColumnIndex(): (i: int) reads this ensures i == columnIndex { columnIndex }
    function MetaDefinition(): (m: RowMetaData?) reads this ensures m == metaDefinition { metaDefinition }

    method SetMetaDefinition(m: RowMetaData?)
      modifies this
      ensures metaDefinition == m && columnIndex == old(columnIndex)
    {
      metaDefinition := m;
    }

    /**
     * checkColumnIndexInitialized: an unresolved index is looked up in the
     * meta definition (failing when there is none or the column is unknown);
     * a resolved one is left alone.
     */
    method CheckColumnIndexInitialized() returns (r: Result<()>)
      modifies this
      ensures metaDefinition == old(metaDefinition)
      ensures var resolved := ResolveIndex(old(columnIndex), old(MetaOf(metaDefinition)), columnName);
        (r.Ok? <==> resolved.Ok?) &&
        (r.Ok? ==> columnIndex == resolved.value) &&
        (r.Err? ==> r.error == resolved.error && columnIndex == old(columnIndex))
    {
      if columnIndex < 0 {
        if metaDefinition == null {
          return Err(NullArgument("Meta definition not initialized"));
        }
        var i := MetaData.ColumnIndex(metaDefinition.Snapshot(), columnName);
        if i.Err? {
          return Err(i.error);
        }
        columnIndex := i.value;
      }
      return Ok(());
    }

    /** doesMatch: resolve the index (all kinds but DateRangeFilter), then test the row's cell. */
    method DoesMatch(row: Row) returns (r: Result<bool>)
      modifies this
      ensures metaDefinition == old(metaDefinition)
      ensures r == Matches(kind, old(columnIndex), old(MetaOf(metaDefinition)), columnName, row.data[..])
      ensures columnIndex == IndexAfter(kind, old(columnIndex), old(MetaOf(metaDefinition)), columnName)
    {
      if !kind.DateRangeKind? {
        var c := CheckColumnIndexInitialized();
        if c.Err? {
          return Err(c.error);
        }
      }
      r := Eval(kind, columnIndex, row.data[..]);
    }
  }
}
