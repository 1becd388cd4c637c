/**
 * CTypes: the integer codes that name a conversion target for CDataConverter,
 * their descriptions, and the mapping from a value's class to a java.sql.Types code.
 */
module CTypes {
  import opened Base

  // Conversion target codes.
  const BOOLEAN: int := 2
  const BYTE: int := 4
  const DATE: int := 6
  const DOUBLE: int := 8
  const FLOAT: int := 10
  const INTEGER: int := 12
  const LONG: int := 14
  const SHORT: int := 16
  const STRING: int := 18
  const TIME: int := 20
  const TIMESTAMP: int := 22
  /** Shares its code with TIMESTAMP. */
  const CHARACTER: int := 22

  // java.sql.Types codes used by getJavaObjType.
  const SQL_BOOLEAN: int := 16
  const SQL_CHAR: int := 1
  const SQL_DATE: int := 91
  const SQL_DOUBLE: int := 8
  const SQL_FLOAT: int := 6
  const SQL_INTEGER: int := 4
  const SQL_NUMERIC: int := 2
  const SQL_VARCHAR: int := 12
  const SQL_TIME: int := 92
  const SQL_TIMESTAMP: int := 93

  /** The codes a conversion can be asked for: the even numbers 2..22. */
  predicate IsConvCode(t: int) {
    t in {BOOLEAN, BYTE, DATE, DOUBLE, FLOAT, INTEGER, LONG, SHORT, STRING, TIME, TIMESTAMP, CHARACTER}
  }

  lemma ConvCodesAreEvenUpTo22(t: int)
    ensures IsConvCode(t) <==> (2 <= t <= 22 && t % 2 == 0)
  {
  }

  /** getConvTypeDesc: the first name whose code matches, else "Invalid Type Value". */
  function ConvTypeDesc(t: int): (r: string)
    ensures IsConvCode(t) <==> r != "Invalid Type Value"
    ensures r != "CHARACTER"
    ensures t == BOOLEAN ==> r == "BOOLEAN"
    ensures t == BYTE ==> r == "BYTE"
    ensures t == DATE ==> r == "DATE"
    ensures t == DOUBLE ==> r == "DOUBLE"
    ensures t == FLOAT ==> r == "FLOAT"
    ensures t == INTEGER ==> r == "INTEGER"
    ensures t == LONG ==> r == "LONG"
    ensures t == SHORT ==> r == "SHORT"
    ensures t == STRING ==> r == "STRING"
    ensures t == TIME ==> r == "TIME"
    ensures t == CHARACTER ==> r == "TIMESTAMP"
  {
    if t == DOUBLE then "DOUBLE"
    else if t == FLOAT then "FLOAT"
    else if t == INTEGER then "INTEGER"
    else if t == LONG then "LONG"
    else if t == SHORT then "SHORT"
    else if t == BOOLEAN then "BOOLEAN"
    else if t == BYTE then "BYTE"
    else if t == DATE then "DATE"
    else if t == STRING then "STRING"
    else if t == TIME then "TIME"
    else if t == TIMESTAMP then "TIMESTAMP"
    else if t == CHARACTER then "CHARACTER"
    else "Invalid Type Value"
  }

  /** getJavaObjType: the java.sql.Types code of a value's class; -1 for null and unknown classes. */
  function JavaObjType(v: Value): (r: int)
    ensures v == Null ==> r == -1
    ensures v.Other? ==> r == -1
    ensures (v.Byte? || v.Char?) ==> r == SQL_CHAR
    ensures (v.Long? || v.Short?) ==> r == SQL_NUMERIC
    ensures (v.UtilDate? || v.SqlDate?) ==> r == SQL_DATE
    ensures v.Str? ==> r == SQL_VARCHAR
    ensures v.Bool? ==> r == SQL_BOOLEAN
    ensures v.Int? ==> r == SQL_INTEGER
    ensures v.Double? ==> r == SQL_DOUBLE
    ensures v.Float? ==> r == SQL_FLOAT
    ensures v.Time? ==> r == SQL_TIME
    ensures v.Timestamp? ==> r == SQL_TIMESTAMP
    ensures r == -1 <==> (v == Null || v.Other?)
  {
    if v == Null then -1
    else
      var cls := ClassOf(v);
      if cls == Boxed(PBoolean) then SQL_BOOLEAN
      else if cls == Boxed(PByte) then SQL_CHAR
      else if cls == SqlDateClass then SQL_DATE
      else if cls == UtilDateClass then SQL_DATE
      else if cls == Boxed(PDouble) then SQL_DOUBLE
      else if cls == Boxed(PFloat) then SQL_FLOAT
      else if cls == Boxed(PInt) then SQL_INTEGER
      else if cls == Boxed(PLong) then SQL_NUMERIC
      else if cls == Boxed(PShort) then SQL_NUMERIC
      else if cls == StringClass then SQL_VARCHAR
      else if cls == TimeClass then SQL_TIME
      else if cls == TimestampClass then SQL_TIMESTAMP
      else if cls == Boxed(PChar) then SQL_CHAR
      else -1
  }
}
