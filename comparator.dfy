/**
 * CDataComparator: a multi-column, type-directed ordering of rows. The
 * constructor validates the column indices and types once; compare walks the
 * columns until one breaks the tie, with null cells sorting first and a pair
 * of null cells ending the walk as a tie.
 */
module Comparator {
  import opened Base
  import opened MetaData

  /** The comparison result before any column has been compared. */
  const UNCOMPARED_STATE: int := -100

  datatype Comparator = Comparator(columnIndices: seq<nat>, columnTypes: seq<JClass>)

  /** What the constructor guarantees: at least one column, one type per column. */
  predicate WellFormed(c: Comparator) {
    |c.columnIndices| >= 1 && |c.columnIndices| == |c.columnTypes|
  }

  /**
   * The constructor: null or empty indices, null types or a length mismatch
   * fail, then a negative index, then a null type.
   */
  function NewComparator(columnIndices: Option<seq<int>>, columnTypes: Option<seq<Option<JClass>>>): (r: Result<Comparator>)
    ensures r.Ok? <==>
      columnIndices.Some? && columnTypes.Some? && |columnIndices.value| >= 1 &&
      |columnIndices.value| == |columnTypes.value| &&
      (forall i :: 0 <= i < |columnIndices.value| ==> columnIndices.value[i] >= 0) &&
      (forall i :: 0 <= i < |columnTypes.value| ==> columnTypes.value[i].Some?)
    ensures r.Ok? ==> (WellFormed(r.value) && |r.value.columnIndices| == |columnIndices.value| &&
      (forall i :: 0 <= i < |columnIndices.value| ==> r.value.columnIndices[i] == columnIndices.value[i]) &&
      (forall i :: 0 <= i < |columnTypes.value| ==> r.value.columnTypes[i] == columnTypes.value[i].value))
  {
    if columnIndices.None? || |columnIndices.value| < 1 || columnTypes.None? ||
       |columnIndices.value| != |columnTypes.value| then
      Err(IllegalArgument("Size of columnIndices, ascending, and columnTypes *MUST* be equivalent."))
    else if exists i :: 0 <= i < |columnIndices.value| && columnIndices.value[i] < 0 then
      Err(IllegalArgument("Column index must be > 0, or a valid column name"))
    else if exists i :: 0 <= i < |columnTypes.value| && columnTypes.value[i].None? then
      Err(IllegalArgument("Passed column types cannot be null."))
    else
      var idx := columnIndices.value;
      var ts := columnTypes.value;
      Ok(Comparator(seq(|idx|, i requires 0 <= i < |idx| => idx[i] as nat),
                    seq(|ts|, i requires 0 <= i < |ts| => ts[i].value)))
  }

  // ---------------------------------------------------------------------
  // Per-type comparisons.

  /** String.compareTo: the first differing character's difference, else the length difference. */
  function StringCompareTo(a: string, b: string): (r: int)
  {
    if a == [] || b == [] then |a| - |b|
    else if a[0] != b[0] then a[0] as int - b[0] as int
    else StringCompareTo(a[1..], b[1..])
  }

  lemma {:induction false} StringCompareAntisym(a: string, b: string)
    ensures StringCompareTo(a, b) == -StringCompareTo(b, a)
  {
    if a != [] && b != [] && a[0] == b[0] {
      StringCompareAntisym(a[1..], b[1..]);
    }
  }

  lemma {:induction false} StringCompareZero(a: string, b: string)
    ensures StringCompareTo(a, b) == 0 <==> a == b
  {
    if a != [] && b != [] && a[0] == b[0] {
      StringCompareZero(a[1..], b[1..]);
      assert a == [a[0]] + a[1..] && b == [b[0]] + b[1..];
    }
  }

  lemma {:induction false} StringCompareTrans(a: string, b: string, c: string)
    requires StringCompareTo(a, b) <= 0 && StringCompareTo(b, c) <= 0
    ensures StringCompareTo(a, c) <= 0
  {
    if a != [] && b != [] && c != [] && a[0] == b[0] && b[0] == c[0] {
      StringCompareTrans(a[1..], b[1..], c[1..]);
    }
  }

  /** -1, 0 or 1: what Integer/Double/Float/Date.compareTo return. */
  function Sign(x: int): (r: int)
    ensures r == -1 || r == 0 || r == 1
    ensures (r < 0 <==> x < 0) && (r == 0 <==> x == 0)
  {
    if x < 0 then -1 else if x == 0 then 0 else 1
  }

  function SignReal(x: real): (r: int)
    ensures r == -1 || r == 0 || r == 1
    ensures (r < 0 <==> x < 0.0) && (r == 0 <==> x == 0.0)
  {
    if x < 0.0 then -1 else if x == 0.0 then 0 else 1
  }

  predicate IsBooleanClass(t: JClass) { t == Boxed(PBoolean) || t == Primitive(PBoolean) }
  predicate IsIntegerClass(t: JClass) { t == Boxed(PInt) || t == Primitive(PInt) }
  predicate IsDoubleClass(t: JClass) { t == Boxed(PDouble) || t == Primitive(PDouble) }
  predicate IsFloatClass(t: JClass) { t == Boxed(PFloat) || t == Primitive(PFloat) }
  predicate IsByteClass(t: JClass) { t == Boxed(PByte) || t == Primitive(PByte) }

  /** The value survives the cast the column type's branch performs. */
  predicate Castable(t: JClass, v: Value) {
    if t == StringClass then v.Str?
    else if IsBooleanClass(t) then v.Bool?
    else if IsIntegerClass(t) then v.Int?
    else if IsDoubleClass(t) then v.Double?
    else if IsFloatClass(t) then v.Float?
    else if t == UtilDateClass then IsDate(v)
    else if t == TimestampClass then v.Timestamp?
    else if IsByteClass(t) then v.Byte?
    else true
  }

  /**
   * The type-directed comparison of two non-null cells. A failed cast is a
   * ClassCastException; a type without a branch compares as equal.
   */
  function TypeCompare(t: JClass, v1: Value, v2: Value): (r: Result<int>)
    ensures r.Ok? <==> Castable(t, v1) && Castable(t, v2)
  {
    if t == StringClass then
      if v1.Str? && v2.Str? then Ok(StringCompareTo(v1.s, v2.s)) else Err(ClassCast)
    else if IsBooleanClass(t) then
      if v1.Bool? && v2.Bool? then Ok(if v1.b == v2.b then 0 else if v1.b then 1 else -1) else Err(ClassCast)
    else if IsIntegerClass(t) then
      if v1.Int? && v2.Int? then Ok(Sign(v1.n - v2.n)) else Err(ClassCast)
    else if IsDoubleClass(t) then
      if v1.Double? && v2.Double? then Ok(SignReal(v1.x - v2.x)) else Err(ClassCast)
    else if IsFloatClass(t) then
      if v1.Float? && v2.Float? then Ok(SignReal(v1.x - v2.x)) else Err(ClassCast)
    else if t == UtilDateClass then
      if IsDate(v1) && IsDate(v2) then Ok(Sign(v1.ms - v2.ms)) else Err(ClassCast)
    else if t == TimestampClass then
      if v1.Timestamp? && v2.Timestamp? then Ok(Sign(v1.ms - v2.ms)) else Err(ClassCast)
    else if IsByteClass(t) then
      if v1.Byte? && v2.Byte? then Ok(v1.n - v2.n) else Err(ClassCast)
    else Ok(0)
  }

  /** Swapping the cells negates the type comparison. */
  lemma TypeCompareAntisym(t: JClass, v1: Value, v2: Value)
    requires TypeCompare(t, v1, v2).Ok?
    ensures TypeCompare(t, v2, v1) == Ok(-TypeCompare(t, v1, v2).value)
  {
    if t == StringClass {
      StringCompareAntisym(v1.s, v2.s);
    }
  }

  /**
   * The type comparison is a total preorder: at-most composes with at-most,
   * and a strict step on either side stays strict.
   */
  lemma TypeCompareTrans(t: JClass, a: Value, b: Value, c: Value)
    requires TypeCompare(t, a, b).Ok? && TypeCompare(t, b, c).Ok?
    requires TypeCompare(t, a, b).value <= 0 && TypeCompare(t, b, c).value <= 0
    ensures TypeCompare(t, a, c).Ok? && TypeCompare(t, a, c).value <= 0
    ensures TypeCompare(t, a, b).value < 0 || TypeCompare(t, b, c).value < 0 ==> TypeCompare(t, a, c).value < 0
  {
    if t == StringClass {
      StringCompareTrans(a.s, b.s, c.s);
      StringCompareZero(a.s, c.s);
      StringCompareZero(a.s, b.s);
      StringCompareZero(b.s, c.s);
      StringCompareAntisym(a.s, b.s);
    }
  }

  // ---------------------------------------------------------------------
  // Row comparison.

  /**
   * compare: null rows first; otherwise the column walk from the first
   * column, before any comparison has been made.
   */
  function Compare(c: Comparator, o1: Option<seq<Value>>, o2: Option<seq<Value>>): (r: Result<int>)
    requires WellFormed(c)
  {
    if o1.None? && o2.None? then Ok(0)
    else if o1.None? then Ok(-1)
    else if o2.None? then Ok(1)
    else CompareFrom(c, o1.value, o2.value, 0, UNCOMPARED_STATE)
  }

  /**
   * The column loop from column i with the comparison so far cmp. A
   * failing read or cast becomes ComparisonFailed with the values read so far.
   */
  function CompareFrom(c: Comparator, r1: seq<Value>, r2: seq<Value>, i: nat, cmp: int): Result<int>
    requires WellFormed(c) && i <= |c.columnIndices|
    decreases |c.columnIndices| - i
  {
    if i == |c.columnIndices| then Ok(cmp)
    else
      var idx := c.columnIndices[i];
      var t := c.columnTypes[i];
      match ValueAt(r1, idx)
      case Err(_) => Err(ComparisonFailed(idx, t, Null, Null))
      case Ok(v1) =>
        match ValueAt(r2, idx)
        case Err(_) => Err(ComparisonFailed(idx, t, v1, Null))
        case Ok(v2) =>
          if v1 == Null && v2 == Null then Ok(if cmp == UNCOMPARED_STATE then 0 else cmp)
          else if v1 == Null then Ok(-1)
          else if v2 == Null then Ok(1)
          else
            match TypeCompare(t, v1, v2)
            case Err(_) => Err(ComparisonFailed(idx, t, v1, v2))
            case Ok(x) => if x != 0 then Ok(x) else CompareFrom(c, r1, r2, i + 1, x)
  }

  /** The comparison so far, as the loop can see it: untouched only before the first column. */
  predicate LoopState(c: Comparator, i: nat, cmp: int) {
    cmp == 0 || (cmp == UNCOMPARED_STATE && i < |c.columnIndices|)
  }

  lemma {:induction false} CompareFromAntisym(c: Comparator, a: seq<Value>, b: seq<Value>, i: nat, cmp: int)
    requires WellFormed(c) && i <= |c.columnIndices| && LoopState(c, i, cmp)
    ensures CompareFrom(c, a, b, i, cmp).Ok? <==> CompareFrom(c, b, a, i, cmp).Ok?
    ensures CompareFrom(c, a, b, i, cmp).Ok? ==>
      CompareFrom(c, b, a, i, cmp).value == -CompareFrom(c, a, b, i, cmp).value
    decreases |c.columnIndices| - i
  {
    if i < |c.columnIndices| {
      var idx := c.columnIndices[i];
      var t := c.columnTypes[i];
      if ValueAt(a, idx).Ok? && ValueAt(b, idx).Ok? {
        var v1, v2 := a[idx], b[idx];
        if v1 != Null && v2 != Null && TypeCompare(t, v1, v2).Ok? {
          TypeCompareAntisym(t, v1, v2);
          if TypeCompare(t, v1, v2).value == 0 {
            CompareFromAntisym(c, a, b, i + 1, 0);
          }
        } else if v1 != Null && v2 != Null {
          assert !TypeCompare(t, v2, v1).Ok?;
        }
      }
    }
  }

  /** Swapping the rows negates the result; one order fails exactly when the other does. */
  lemma CompareAntisym(c: Comparator, a: Option<seq<Value>>, b: Option<seq<Value>>)
    requires WellFormed(c)
    ensures Compare(c, a, b).Ok? <==> Compare(c, b, a).Ok?
    ensures Compare(c, a, b).Ok? ==> Compare(c, b, a).value == -Compare(c, a, b).value
  {
    if a.Some? && b.Some? {
      CompareFromAntisym(c, a.value, b.value, 0, UNCOMPARED_STATE);
    }
  }

  /** A row that can be compared with itself ties with itself. */
  lemma CompareSelf(c: Comparator, a: Option<seq<Value>>)
    requires WellFormed(c) && Compare(c, a, a).Ok?
    ensures Compare(c, a, a).value == 0
  {
    CompareAntisym(c, a, a);
  }

  lemma {:induction false} CompareFromTrans(c: Comparator, a: seq<Value>, b: seq<Value>, d: seq<Value>, i: nat, cmp: int)
    requires WellFormed(c) && i <= |c.columnIndices| && LoopState(c, i, cmp)
    requires CompareFrom(c, a, b, i, cmp).Ok? && CompareFrom(c, a, b, i, cmp).value <= 0
    requires CompareFrom(c, b, d, i, cmp).Ok? && CompareFrom(c, b, d, i, cmp).value <= 0
    requires CompareFrom(c, a, d, i, cmp).Ok?
    ensures CompareFrom(c, a, d, i, cmp).value <= 0
    decreases |c.columnIndices| - i
  {
    if i < |c.columnIndices| {
      var idx := c.columnIndices[i];
      var t := c.columnTypes[i];
      var va, vb, vd := a[idx], b[idx], d[idx];
      if va != Null && vb != Null && vd != Null {
        TypeCompareTrans(t, va, vb, vd);
        if TypeCompare(t, va, vb).value == 0 && TypeCompare(t, vb, vd).value == 0 && TypeCompare(t, va, vd).value == 0 {
          CompareFromTrans(c, a, b, d, i + 1, 0);
        }
      }
    }
  }

  /** Row comparison is transitive: a <= b and b <= d give a <= d whenever a and d can be compared. */
  lemma CompareTrans(c: Comparator, a: Option<seq<Value>>, b: Option<seq<Value>>, d: Option<seq<Value>>)
    requires WellFormed(c)
    requires Compare(c, a, b).Ok? && Compare(c, a, b).value <= 0
    requires Compare(c, b, d).Ok? && Compare(c, b, d).value <= 0
    requires Compare(c, a, d).Ok?
    ensures Compare(c, a, d).value <= 0
  {
    if a.Some? && b.Some? && d.Some? {
      CompareFromTrans(c, a.value, b.value, d.value, 0, UNCOMPARED_STATE);
    }
  }

  /** Null rows: two nulls tie, and a null row sorts before any row. */
  lemma CompareNullRows(c: Comparator, a: seq<Value>)
    requires WellFormed(c)
    ensures Compare(c, None, None) == Ok(0)
    ensures Compare(c, None, Some(a)) == Ok(-1) && Compare(c, Some(a), None) == Ok(1)
  {
  }

  /**
   * On the first column two null cells tie at once, whatever the later
   * columns hold, and a single null cell sorts first.
   */
  lemma FirstColumnNulls(c: Comparator, a: seq<Value>, b: seq<Value>)
    requires WellFormed(c)
    requires c.columnIndices[0] < |a| && c.columnIndices[0] < |b|
    ensures a[c.columnIndices[0]] == Null && b[c.columnIndices[0]] == Null ==> Compare(c, Some(a), Some(b)) == Ok(0)
    ensures a[c.columnIndices[0]] == Null && b[c.columnIndices[0]] != Null ==> Compare(c, Some(a), Some(b)) == Ok(-1)
    ensures a[c.columnIndices[0]] != Null && b[c.columnIndices[0]] == Null ==> Compare(c, Some(a), Some(b)) == Ok(1)
  {
  }

  /**
   * After a tie on the earlier columns, two null cells end the walk with
   * the tie: the remaining columns are never read, not even for bounds.
   */
  lemma LaterColumnNullsStop(c: Comparator, a: seq<Value>, b: seq<Value>, i: nat)
    requires WellFormed(c) && 0 < i < |c.columnIndices|
    requires c.columnIndices[i] < |a| && c.columnIndices[i] < |b|
    requires a[c.columnIndices[i]] == Null && b[c.columnIndices[i]] == Null
    ensures CompareFrom(c, a, b, i, 0) == Ok(0)
  {
  }

  /** A column type without a branch (Long, Short, Character, ...) never breaks a tie. */
  lemma UnbranchedTypeTies(t: JClass, v1: Value, v2: Value)
    requires t.Boxed? && t.p in {PLong, PShort, PChar}
    ensures TypeCompare(t, v1, v2) == Ok(0)
  {
  }

  /** The comparator test: rows (1,false,2) and (1,false,1) on Integer, Boolean, Integer columns. */
  lemma {:induction false} ThreeColumnExample()
    ensures var c := Comparator([0, 1, 2], [Boxed(PInt), Boxed(PBoolean), Boxed(PInt)]);
      var r1 := Some([Int(1), Bool(false), Int(2)]);
      var r2 := Some([Int(1), Bool(false), Int(1)]);
      Compare(c, r1, r2) == Ok(1) && Compare(c, r2, r1) == Ok(-1) &&
      Compare(c, r1, r1) == Ok(0) && Compare(c, r2, r2) == Ok(0)
  {
    var c := Comparator([0, 1, 2], [Boxed(PInt), Boxed(PBoolean), Boxed(PInt)]);
    var a := [Int(1), Bool(false), Int(2)];
    var b := [Int(1), Bool(false), Int(1)];
    assert CompareFrom(c, a, b, 2, 0) == Ok(1);
    assert CompareFrom(c, a, b, 1, 0) == Ok(1);
    assert CompareFrom(c, b, a, 2, 0) == Ok(-1);
    assert CompareFrom(c, b, a, 1, 0) == Ok(-1);
    assert CompareFrom(c, a, a, 3, 0) == Ok(0);
    assert CompareFrom(c, a, a, 2, 0) == Ok(0);
    assert CompareFrom(c, a, a, 1, 0) == Ok(0);
    assert CompareFrom(c, b, b, 3, 0) == Ok(0);
    assert CompareFrom(c, b, b, 2, 0) == Ok(0);
    assert CompareFrom(c, b, b, 1, 0) == Ok(0);
  }

  /** A value of the wrong class for its column fails with the column, its type and both cells. */
  lemma CastFailureReported(c: Comparator, a: seq<Value>, b: seq<Value>)
    requires WellFormed(c) && c.columnTypes[0] == StringClass
    requires c.columnIndices[0] < |a| && c.columnIndices[0] < |b|
    requires a[c.columnIndices[0]] == Int(1) && b[c.columnIndices[0]] == Str("x")
    ensures Compare(c, Some(a), Some(b)) == Err(ComparisonFailed(c.columnIndices[0], StringClass, Int(1), Str("x")))
  {
  }
}
