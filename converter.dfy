/**
 * CDataConverter.convertTo: converts a cell value to the class named by a
 * CTypes code. The branches are tried in the order of the source: Byte, any
 * other Number, String, Timestamp, Boolean, java.util.Date (which also
 * catches java.sql.Date and java.sql.Time) and Character.
 */
module Converter {
  import opened Base
  import opened CTypes

  /** toInteger(Boolean): 1 for true, 0 for false (and 0 for null). */
  function ToInteger(b: Option<bool>): (r: int)
    ensures r == 0 || r == 1
    ensures r == 1 <==> b == Some(true)
  {
    match b
    case None => 0
    case Some(x) => if x then 1 else 0
  }

  function Invalid(from: string, t: int): Error {
    InvalidConversion(from, t)
  }

  /** Number -> BOOLEAN by a test of the (already narrowed) integer value. */
  function ZeroOneToBool(n: int, from: string, t: int): Result<Value> {
    if n == 0 then Ok(Bool(false))
    else if n == 1 then Ok(Bool(true))
    else Err(Invalid(from, t))
  }

  /** A parse that may throw NumberFormatException. */
  function Parsed(p: Option<int>, mk: int -> Value, s: string): Result<Value> {
    match p
    case None => Err(NumberFormat(s))
    case Some(n) => Ok(mk(n))
  }

  function ParsedReal(p: Option<real>, mk: real -> Value, s: string): Result<Value> {
    match p
    case None => Err(NumberFormat(s))
    case Some(x) => Ok(mk(x))
  }

  function ConvertTo(v: Value, t: int, text: JavaText): (r: Result<Value>)
    ensures v == Null ==> r == Ok(Null)
  {
    if v == Null then Ok(Null)
    else if v.Byte? then
      if t == BOOLEAN then ZeroOneToBool(v.n, "Byte", t)
      else if t == BYTE then Ok(v)
      else if t == DOUBLE then Ok(Double(v.n as real))
      else if t == FLOAT then Ok(Float(v.n as real))
      else if t == INTEGER then Ok(Int(v.n))
      else if t == LONG then Ok(Long(v.n))
      else if t == SHORT then Ok(Short(v.n))
      else if t == STRING then Ok(Str(text.show(v)))
      else Err(Invalid("Byte", t))
    else if IsNumber(v) then
      if t == BOOLEAN then ZeroOneToBool(IntValue(v), "Numeric", t)
      else if t == BYTE then Ok(Byte(ByteValue(v)))
      else if t == DOUBLE then Ok(Double(RealValue(v)))
      else if t == FLOAT then Ok(Float(RealValue(v)))
      else if t == INTEGER then Ok(Int(IntValue(v)))
      else if t == LONG then Ok(Long(LongValue(v)))
      else if t == SHORT then Ok(Short(ShortValue(v)))
      else if t == STRING then Ok(Str(text.show(v)))
      else Err(Invalid("Integer", t))
    else if v.Str? then
      if t == BOOLEAN then Ok(Bool(EqualsIgnoreCase(v.s, "true")))
      else if t == BYTE then Parsed(text.parseByte(v.s), n => Byte(n), v.s)
      else if t == DOUBLE then ParsedReal(text.parseDouble(v.s), x => Double(x), v.s)
      else if t == FLOAT then ParsedReal(text.parseFloat(v.s), x => Float(x), v.s)
      else if t == INTEGER then Parsed(text.parseInt(v.s), n => Int(n), v.s)
      else if t == LONG then Parsed(text.parseLong(v.s), n => Long(n), v.s)
      else if t == SHORT then Parsed(text.parseShort(v.s), n => Short(n), v.s)
      else if t == STRING then Ok(v)
      else Err(Invalid("String", t))
    else if v.Timestamp? then
      if t == DATE then Ok(SqlDate(v.ms))
      else if t == STRING then Ok(Str(text.show(v)))
      else if t == TIME then Ok(Time(v.ms))
      else if t == TIMESTAMP then Ok(v)
      else Err(Invalid("Timestamp", t))
    else if v.Bool? then
      var n := ToInteger(Some(v.b));
      if t == BOOLEAN then Ok(v)
      else if t == BYTE then Ok(Byte(Wrap8(n)))
      else if t == DOUBLE then Ok(Double(n as real))
      else if t == FLOAT then Ok(Float(n as real))
      else if t == INTEGER then Ok(Int(n))
      else if t == LONG then Ok(Long(n))
      else if t == SHORT then Ok(Short(Wrap16(n)))
      else if t == STRING then Ok(Str(text.show(v)))
      else Err(Invalid("Boolean", t))
    else if IsDate(v) then
      if t == STRING then Ok(Str(text.show(v)))
      else if t == DATE then Ok(v)
      else if t == TIME then Ok(Time(v.ms))
      else if t == TIMESTAMP then Ok(Timestamp(v.ms))
      else Err(Invalid("java.util.Date", t))
    else if v.Char? then
      if t == CHARACTER then Ok(v)
      else if t == STRING then Ok(Str(text.show(v)))
      else Err(Invalid("Character", t))
    else
      Err(NotConvertible(v.cls))
  }

  /** The class a successful, non-null conversion to code t produces. */
  predicate ProducesTarget(t: int, w: Value) {
    if t == BOOLEAN then w.Bool?
    else if t == BYTE then w.Byte?
    else if t == DOUBLE then w.Double?
    else if t == FLOAT then w.Float?
    else if t == INTEGER then w.Int?
    else if t == LONG then w.Long?
    else if t == SHORT then w.Short?
    else if t == STRING then w.Str?
    else if t == TIME then w.Time?
    // DATE gives java.sql.Date from a Timestamp but a java.util.Date input unchanged
    else if t == DATE then IsDate(w) && !w.Timestamp?
    // 22 is both TIMESTAMP and CHARACTER
    else if t == TIMESTAMP then w.Timestamp? || w.Char?
    else false
  }

  /** A conversion that succeeds on a non-null value yields an object of the requested class. */
  lemma {:induction false} ConvertYieldsTarget(v: Value, t: int, text: JavaText)
    requires v != Null && ConvertTo(v, t, text).Ok?
    ensures ProducesTarget(t, ConvertTo(v, t, text).value)
    ensures IsConvCode(t)
  {
    if IsNumber(v) && t == BOOLEAN {
      assert ConvertTo(v, t, text).value.Bool?;
    }
  }

  /** Narrowing never produces an out-of-range integer when the parses are Java's. */
  ghost predicate ParsesInRange(text: JavaText) {
    (forall s :: text.parseByte(s).Some? ==> -0x80 <= text.parseByte(s).value < 0x80) &&
    (forall s :: text.parseShort(s).Some? ==> -0x8000 <= text.parseShort(s).value < 0x8000) &&
    (forall s :: text.parseInt(s).Some? ==> MinInt <= text.parseInt(s).value <= MaxInt) &&
    (forall s :: text.parseLong(s).Some? ==> MinLong <= text.parseLong(s).value <= MaxLong)
  }

  lemma {:induction false} ConvertKeepsRange(v: Value, t: int, text: JavaText)
    requires InRange(v) && ParsesInRange(text) && ConvertTo(v, t, text).Ok?
    ensures InRange(ConvertTo(v, t, text).value)
  {
    var w := ConvertTo(v, t, text).value;
    if v.Str? {
      if t == BYTE { assert text.parseByte(v.s).Some?; }
      else if t == SHORT { assert text.parseShort(v.s).Some?; }
      else if t == INTEGER { assert text.parseInt(v.s).Some?; }
      else if t == LONG { assert text.parseLong(v.s).Some?; }
    } else if IsNumber(v) && !v.Byte? && t == LONG {
      assert w == Long(LongValue(v));
    }
  }

  /** Number -> BOOLEAN: 0 is false, 1 is true, anything else fails (after intValue narrowing). */
  lemma NumberToBoolean(v: Value, text: JavaText)
    requires IsNumber(v)
    ensures ConvertTo(v, BOOLEAN, text) ==
      (var n := if v.Byte? then v.n else IntValue(v);
       if n == 0 then Ok(Bool(false)) else if n == 1 then Ok(Bool(true))
       else Err(InvalidConversion(if v.Byte? then "Byte" else "Numeric", BOOLEAN)))
  {
  }

  /** Number -> BYTE/SHORT/INTEGER/LONG narrows without a range check; Byte -> BYTE is the identity. */
  lemma NumberNarrowing(v: Value, text: JavaText)
    requires IsNumber(v)
    ensures ConvertTo(v, BYTE, text) == Ok(Byte(ByteValue(v)))
    ensures ConvertTo(v, SHORT, text) == Ok(Short(ShortValue(v)))
    ensures ConvertTo(v, INTEGER, text) == Ok(Int(IntValue(v)))
    ensures ConvertTo(v, LONG, text) == Ok(Long(LongValue(v)))
    ensures v.Byte? ==> ConvertTo(v, BYTE, text) == Ok(v)
  {
  }

  /** An out-of-range long wraps: 300 as a byte is 44, 2^31 as an int is -2^31. */
  lemma NarrowingWraps(text: JavaText)
    ensures ConvertTo(Long(300), BYTE, text) == Ok(Byte(44))
    ensures ConvertTo(Long(0x8000_0000), INTEGER, text) == Ok(Int(-0x8000_0000))
    ensures ConvertTo(Double(-2.75), INTEGER, text) == Ok(Int(-2))
  {
    assert Truncate(-2.75) == -2;
  }

  /** Boolean -> BOOLEAN is the identity; Boolean -> BYTE/SHORT is 1 for true and 0 for false. */
  lemma BooleanToBooleanByteShort(b: bool, text: JavaText)
    ensures ConvertTo(Bool(b), BOOLEAN, text) == Ok(Bool(b))
    ensures ConvertTo(Bool(b), BYTE, text) == Ok(Byte(if b then 1 else 0))
    ensures ConvertTo(Bool(b), SHORT, text) == Ok(Short(if b then 1 else 0))
  {
  }

  /** Boolean -> INTEGER/LONG is 1 for true and 0 for false. */
  lemma BooleanToIntLong(b: bool, text: JavaText)
    ensures ConvertTo(Bool(b), INTEGER, text) == Ok(Int(if b then 1 else 0))
    ensures ConvertTo(Bool(b), LONG, text) == Ok(Long(if b then 1 else 0))
  {
  }

  /** Date-like values converted to DATE/TIME/TIMESTAMP keep their milliseconds. */
  lemma {:induction false} DatesKeepMilliseconds(v: Value, t: int, text: JavaText)
    requires IsDate(v) && t in {DATE, TIME, TIMESTAMP}
    ensures ConvertTo(v, t, text).Ok?
    ensures IsDate(ConvertTo(v, t, text).value) && ConvertTo(v, t, text).value.ms == v.ms
    ensures v.Timestamp? && t == DATE ==> ConvertTo(v, t, text) == Ok(SqlDate(v.ms))
    ensures !v.Timestamp? && t == DATE ==> ConvertTo(v, t, text) == Ok(v)
  {
  }

  /** Characters convert only to CHARACTER (itself) or STRING; code 22 also returns a Timestamp unchanged. */
  lemma {:induction false} CharacterAndTimestampShareCode(c: char, ms: int, t: int, text: JavaText)
    ensures ConvertTo(Char(c), t, text).Ok? <==> (t == CHARACTER || t == STRING)
    ensures ConvertTo(Char(c), TIMESTAMP, text) == Ok(Char(c))
    ensures ConvertTo(Timestamp(ms), CHARACTER, text) == Ok(Timestamp(ms))
  {
  }

  /** String -> BOOLEAN never fails; String -> DATE/TIME/TIMESTAMP/CHARACTER always fails. */
  lemma StringConversions(s: string, text: JavaText)
    ensures ConvertTo(Str(s), BOOLEAN, text) == Ok(Bool(EqualsIgnoreCase(s, "true")))
    ensures ConvertTo(Str(s), DATE, text).Err?
    ensures ConvertTo(Str(s), TIME, text).Err?
    ensures ConvertTo(Str(s), TIMESTAMP, text).Err?
    ensures ConvertTo(Str(s), CHARACTER, text).Err?
    ensures ConvertTo(Str(s), STRING, text) == Ok(Str(s))
  {
  }

  /** A class the converter does not know, or a code outside 2..22, fails. */
  lemma {:induction false} UnknownFails(v: Value, t: int, text: JavaText)
    requires v != Null && (v.Other? || !IsConvCode(t))
    ensures ConvertTo(v, t, text).Err?
  {
    if !v.Other? && ConvertTo(v, t, text).Ok? {
      ConvertYieldsTarget(v, t, text);
    }
  }

  /** An integer written out by STRING and read back by INTEGER is the same integer, when toString and parseInt agree. */
  lemma IntegerStringRoundTrip(n: int, text: JavaText)
    requires text.parseInt(text.show(Int(n))) == Some(n)
    ensures ConvertTo(Int(n), STRING, text).Ok?
    ensures ConvertTo(ConvertTo(Int(n), STRING, text).value, INTEGER, text) == Ok(Int(n))
  {
  }
}
