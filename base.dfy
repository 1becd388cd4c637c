/**
 * Shared vocabulary of the casperdatasets model: the Java values a data cell
 * can hold, the Java classes a column can be declared with, the exceptions the
 * library throws (as an Error value carried by Result), and the parts of the
 * JVM the library leans on (integer narrowing, toString / parse*).
 */
module Base {

  datatype Option<T> = None | Some(value: T)

  /** Every exception the library throws (or lets escape) in the modelled code. */
  datatype Error =
    | NullArgument(what: string)              // CDataGridException on a null / empty / blank argument
    | LengthMismatch(what: string)            // parallel arrays of different lengths
    | UnknownColumn(name: string)             // a column name that is not in the schema
    | DuplicateColumn(name: string)           // addColumns of a column that already exists
    | IndexOutOfBounds(length: int, index: int)
    | CorruptRow                              // a null row or a row whose width differs from the schema
    | SchemaMismatch                          // two containers with different meta definitions
    | InvalidConversion(from: string, target: int)   // a convertTo target the source class does not support
    | NotConvertible(className: string)                 // convertTo of a class it does not know
    | NumberFormat(text: string)              // java.lang.NumberFormatException from a parse
    | ClassCast                               // java.lang.ClassCastException
    | NullPointer                             // java.lang.NullPointerException
    | InvalidBounds                           // a range whose lower bound is not below its upper bound
    | CursorNotAtStart                        // sorting a row set whose cursor has moved
    | InvalidCursor(position: int)
    | ComparisonFailed(column: int, columnType: JClass, left: Value, right: Value)
    | CouldNotMatch(cause: Error)             // a filter error wrapped by the filter
    | IllegalArgument(what: string)
    | FileNotFound(path: string)
    | UnsupportedFileType(path: string)
    | Io(what: string)
    | UnsupportedProperty(cls: JClass)

  datatype Result<T> = Ok(value: T) | Err(error: Error)

  /**
   * A cell value: Java null or an instance of one of the classes the library
   * knows about. Float and Double carry exact reals (no IEEE rounding);
   * dates carry their milliseconds since the epoch.
   */
  datatype Value =
    | Null
    | Bool(b: bool)
    | Byte(n: int)
    | Short(n: int)
    | Int(n: int)
    | Long(n: int)
    | Float(x: real)
    | Double(x: real)
    | Str(s: string)
    | Char(c: char)
    | UtilDate(ms: int)      // java.util.Date
    | SqlDate(ms: int)       // java.sql.Date
    | Time(ms: int)          // java.sql.Time
    | Timestamp(ms: int)     // java.sql.Timestamp
    | Other(cls: string, id: nat)

  /** The eight Java primitive kinds. */
  datatype Prim = PBoolean | PByte | PShort | PInt | PLong | PFloat | PDouble | PChar

  /** A java.lang.Class as used for column types and bean property types. */
  datatype JClass =
    | Primitive(p: Prim)     // int.class, boolean.class, ...
    | Boxed(p: Prim)         // Integer.class, Boolean.class, ...
    | StringClass
    | UtilDateClass
    | SqlDateClass
    | TimeClass
    | TimestampClass
    | OtherClass(name: string)

  /** The value is one a Java object of its class can hold (a byte is in -128..127, ...). */
  predicate InRange(v: Value) {
    match v
    case Byte(n) => -0x80 <= n < 0x80
    case Short(n) => -0x8000 <= n < 0x8000
    case Int(n) => MinInt <= n <= MaxInt
    case Long(n) => MinLong <= n <= MaxLong
    case _ => true
  }

  /** Java `instanceof Number` for the classes of the model. */
  predicate IsNumber(v: Value) {
    v.Byte? || v.Short? || v.Int? || v.Long? || v.Float? || v.Double?
  }

  /** Java `instanceof java.util.Date` (sql.Date, Time and Timestamp extend it). */
  predicate IsDate(v: Value) {
    v.UtilDate? || v.SqlDate? || v.Time? || v.Timestamp?
  }

  /** getClass() of a non-null value. */
  function ClassOf(v: Value): JClass
    requires v != Null
  {
    match v
    case Bool(_) => Boxed(PBoolean)
    case Byte(_) => Boxed(PByte)
    case Short(_) => Boxed(PShort)
    case Int(_) => Boxed(PInt)
    case Long(_) => Boxed(PLong)
    case Float(_) => Boxed(PFloat)
    case Double(_) => Boxed(PDouble)
    case Str(_) => StringClass
    case Char(_) => Boxed(PChar)
    case UtilDate(_) => UtilDateClass
    case SqlDate(_) => SqlDateClass
    case Time(_) => TimeClass
    case Timestamp(_) => TimestampClass
    case Other(c, _) => OtherClass(c)
  }

  /**
   * The parts of the JVM's text handling the library calls but does not
   * define: Object.toString() and the parse behind `new Byte(String)`,
   * `new Short(String)`, ... (None stands for NumberFormatException).
   */
  datatype JavaText = JavaText(
    show: Value -> string,
    parseByte: string -> Option<int>,
    parseShort: string -> Option<int>,
    parseInt: string -> Option<int>,
    parseLong: string -> Option<int>,
    parseFloat: string -> Option<real>,
    parseDouble: string -> Option<real>)

  // ---------------------------------------------------------------------
  // Java integer narrowing: two's complement wrap-around to 8, 16 or 32 bits.

  /** (byte) x */
  function Wrap8(x: int): (r: int)
    ensures -0x80 <= r < 0x80 && (r - x) % 0x100 == 0
    ensures -0x80 <= x < 0x80 ==> r == x
  {
    (x + 0x80) % 0x100 - 0x80
  }

  /** (short) x */
  function Wrap16(x: int): (r: int)
    ensures -0x8000 <= r < 0x8000 && (r - x) % 0x1_0000 == 0
    ensures -0x8000 <= x < 0x8000 ==> r == x
  {
    (x + 0x8000) % 0x1_0000 - 0x8000
  }

  /** (int) x */
  function Wrap32(x: int): (r: int)
    ensures -0x8000_0000 <= r < 0x8000_0000 && (r - x) % 0x1_0000_0000 == 0
    ensures -0x8000_0000 <= x < 0x8000_0000 ==> r == x
  {
    (x + 0x8000_0000) % 0x1_0000_0000 - 0x8000_0000
  }

  const MinInt: int := -0x8000_0000
  const MaxInt: int := 0x7fff_ffff
  const MinLong: int := -0x8000_0000_0000_0000
  const MaxLong: int := 0x7fff_ffff_ffff_ffff

  /** Truncation of a real toward zero (Java's narrowing of a double). */
  function Truncate(x: real): int {
    if x >= 0.0 then x.Floor else -((-x).Floor)
  }

  /** Java's double-to-int (or -long) narrowing: truncate, then saturate. */
  function Saturate(x: real, lo: int, hi: int): int {
    var t := Truncate(x);
    if t < lo then lo else if t > hi then hi else t
  }

  /** Number.intValue() */
  function IntValue(v: Value): int
    requires IsNumber(v)
  {
    match v
    case Byte(n) => n
    case Short(n) => n
    case Int(n) => n
    case Long(n) => Wrap32(n)
    case Float(x) => Saturate(x, MinInt, MaxInt)
    case Double(x) => Saturate(x, MinInt, MaxInt)
  }

  /** Number.longValue() */
  function LongValue(v: Value): int
    requires IsNumber(v)
  {
    match v
    case Byte(n) => n
    case Short(n) => n
    case Int(n) => n
    case Long(n) => n
    case Float(x) => Saturate(x, MinLong, MaxLong)
    case Double(x) => Saturate(x, MinLong, MaxLong)
  }

  /** Number.shortValue(): a narrowing of the int (for floating values) or of the value. */
  function ShortValue(v: Value): int
    requires IsNumber(v)
  {
    match v
    case Byte(n) => n
    case Short(n) => n
    case Int(n) => Wrap16(n)
    case Long(n) => Wrap16(n)
    case Float(x) => Wrap16(Saturate(x, MinInt, MaxInt))
    case Double(x) => Wrap16(Saturate(x, MinInt, MaxInt))
  }

  /** Number.byteValue() */
  function ByteValue(v: Value): int
    requires IsNumber(v)
  {
    match v
    case Byte(n) => n
    case Short(n) => Wrap8(n)
    case Int(n) => Wrap8(n)
    case Long(n) => Wrap8(n)
    case Float(x) => Wrap8(Saturate(x, MinInt, MaxInt))
    case Double(x) => Wrap8(Saturate(x, MinInt, MaxInt))
  }

  /** Number.doubleValue() / floatValue(), without rounding. */
  function RealValue(v: Value): real
    requires IsNumber(v)
  {
    match v
    case Byte(n) => n as real
    case Short(n) => n as real
    case Int(n) => n as real
    case Long(n) => n as real
    case Float(x) => x
    case Double(x) => x
  }

  // ---------------------------------------------------------------------
  // Text helpers (ASCII case mapping only).

  function LowerAscii(c: char): char {
    if 'A' <= c <= 'Z' then (c as int + 32) as char else c
  }

  function UpperAscii(c: char): char {
    if 'a' <= c <= 'z' then (c as int - 32) as char else c
  }

  function ToUpper(s: string): (r: string)
    ensures |r| == |s| && forall i :: 0 <= i < |s| ==> r[i] == UpperAscii(s[i])
  {
    if s == [] then [] else [UpperAscii(s[0])] + ToUpper(s[1..])
  }

  /** String.equalsIgnoreCase: same length and equal characters after case folding. */
  predicate EqualsIgnoreCase(a: string, b: string) {
    |a| == |b| && forall i :: 0 <= i < |a| ==> LowerAscii(a[i]) == LowerAscii(b[i])
  }

  /** String.trim().length() < 1: every character is at most U+0020. */
  predicate IsBlank(s: string) {
    forall i :: 0 <= i < |s| ==> s[i] <= ' '
  }

  // ---------------------------------------------------------------------
  // String.split on a one-character separator.

  /** Every piece of s between separators, empty pieces included. */
  function Pieces(s: string, sep: char): (r: seq<string>)
    ensures |r| >= 1
    ensures forall i :: 0 <= i < |r| ==> sep !in r[i]
  {
    if |s| == 0 then [""]
    else
      var rest := Pieces(s[1..], sep);
      if s[0] == sep then [""] + rest
      else [[s[0]] + rest[0]] + rest[1..]
  }

  /** The pieces glued back together with the separator. */
  function JoinWith(pieces: seq<string>, sep: char): string
  {
    if |pieces| == 0 then ""
    else if |pieces| == 1 then pieces[0]
    else pieces[0] + [sep] + JoinWith(pieces[1..], sep)
  }

  /** Splitting and joining again gives back the text. */
  lemma {:induction false} PiecesJoin(s: string, sep: char)
    ensures JoinWith(Pieces(s, sep), sep) == s
  {
    if |s| > 0 {
      var rest := Pieces(s[1..], sep);
      PiecesJoin(s[1..], sep);
      if s[0] == sep {
        assert s == [sep] + s[1..];
      } else {
        assert s == [s[0]] + s[1..];
        if |rest| > 1 {
          assert rest == [rest[0]] + rest[1..];
        }
      }
    }
  }

  /** Pieces of a text by its first character. */
  lemma PiecesCons(c: char, s: string, sep: char)
    ensures Pieces([c] + s, sep) ==
      if c == sep then [""] + Pieces(s, sep) else [[c] + Pieces(s, sep)[0]] + Pieces(s, sep)[1..]
  {
    assert ([c] + s)[1..] == s;
  }

  /** A separator splits the pieces in two. */
  lemma {:induction false} PiecesConcat(a: string, b: string, sep: char)
    ensures Pieces(a + [sep] + b, sep) == Pieces(a, sep) + Pieces(b, sep)
  {
    if |a| == 0 {
      assert a + [sep] + b == [sep] + b;
      PiecesCons(sep, b, sep);
    } else {
      PiecesConcat(a[1..], b, sep);
      PiecesConcatStep(a, b, sep);
    }
  }

  /** The inductive step of PiecesConcat: one more leading character. */
  lemma PiecesConcatStep(a: string, b: string, sep: char)
    requires |a| > 0
    requires Pieces(a[1..] + [sep] + b, sep) == Pieces(a[1..], sep) + Pieces(b, sep)
    ensures Pieces(a + [sep] + b, sep) == Pieces(a, sep) + Pieces(b, sep)
  {
    var tail := a[1..] + [sep] + b;
    assert a + [sep] + b == [a[0]] + tail;
    assert a == [a[0]] + a[1..];
    PiecesCons(a[0], tail, sep);
    PiecesCons(a[0], a[1..], sep);
    GlueFirst(a[0], sep, Pieces(a[1..], sep), Pieces(b, sep));
  }

  /** The head character joins the first piece, or opens an empty one when it is the separator. */
  lemma GlueFirst(c: char, sep: char, front: seq<string>, pb: seq<string>)
    requires |front| > 0
    ensures (if c == sep then [""] + (front + pb) else [[c] + (front + pb)[0]] + (front + pb)[1..]) ==
            (if c == sep then [""] + front else [[c] + front[0]] + front[1..]) + pb
  {
    if c != sep {
      assert (front + pb)[1..] == front[1..] + pb;
    }
  }

  lemma {:induction false} PiecesOfPlain(s: string, sep: char)
    requires sep !in s
    ensures Pieces(s, sep) == [s]
  {
    if |s| > 0 {
      PiecesOfPlain(s[1..], sep);
      assert [s[0]] + s[1..] == s;
    }
  }

  /** Pieces without the empty ones at the end (String.split drops those). */
  function DropTrailingEmpty(pieces: seq<string>): (r: seq<string>)
    ensures |r| <= |pieces| && r == pieces[..|r|]
    ensures |r| > 0 ==> r[|r| - 1] != ""
    ensures forall i :: |r| <= i < |pieces| ==> pieces[i] == ""
  {
    if |pieces| == 0 then []
    else if pieces[|pieces| - 1] == "" then DropTrailingEmpty(pieces[..|pieces| - 1])
    else pieces
  }

  /**
   * String.split(String.valueOf(sep)) for a one-character separator: the
   * pieces with trailing empty ones removed, except that a text without any
   * separator comes back whole (so "" splits into [""] and "," into []).
   */
  function JavaSplit(s: string, sep: char): (r: seq<string>)
    ensures forall i :: 0 <= i < |r| ==> sep !in r[i]
    ensures sep !in s ==> r == [s]
  {
    if sep !in s then [s]
    else DropTrailingEmpty(Pieces(s, sep))
  }

  /** A separated list that does not end in a separator splits back into what was joined. */
  lemma JavaSplitRoundTrip(s: string, sep: char)
    requires |s| > 0 && s[|s| - 1] != sep
    ensures JoinWith(JavaSplit(s, sep), sep) == s
  {
    PiecesJoin(s, sep);
    if sep in s {
      LastPieceNotEmpty(s, sep);
    }
  }

  lemma {:induction false} LastPieceNotEmpty(s: string, sep: char)
    requires |s| > 0 && s[|s| - 1] != sep
    ensures Pieces(s, sep)[|Pieces(s, sep)| - 1] != ""
  {
    if |s| > 1 {
      LastPieceNotEmpty(s[1..], sep);
    }
  }

  /** "a,b,," splits into ["a", "b"]: the trailing empty names are dropped. */
  lemma SplitExamples()
    ensures JavaSplit("a,b,,", ',') == ["a", "b"]
  {
    PiecesOfPlain("", ',');
    assert "," == "" + [','] + "";
    PiecesConcat("", "", ',');
    assert "b,," == "b" + [','] + ",";
    PiecesOfPlain("b", ',');
    PiecesConcat("b", ",", ',');
    assert "a,b,," == "a" + [','] + "b,,";
    PiecesOfPlain("a", ',');
    PiecesConcat("a", "b,,", ',');
    var p := Pieces("a,b,,", ',');
    assert p == ["a", "b", "", ""];
    assert p[..3] == ["a", "b", ""];
    assert p[..3][..2] == ["a", "b"];
    assert DropTrailingEmpty(p) == DropTrailingEmpty(p[..3]) == DropTrailingEmpty(p[..3][..2]);
    assert ',' in "a,b,,";
  }

  /** "," splits into no names at all, and "" into the one empty name. */
  lemma SplitLoneSeparator()
    ensures JavaSplit(",", ',') == []
    ensures JavaSplit("", ',') == [""]
  {
    PiecesOfPlain("", ',');
    assert "," == "" + [','] + "";
    PiecesConcat("", "", ',');
    var p := Pieces(",", ',');
    assert p == ["", ""];
    assert p[..1] == [""];
    assert p[..1][..0] == [];
    assert DropTrailingEmpty(p) == DropTrailingEmpty(p[..1]) == DropTrailingEmpty([]);
    assert ',' in ",";
  }
}
