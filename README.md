# casperdatasets in Dafny

casperdatasets is an in-memory table engine for Java. A **cache container**
(`CDataCacheContainer`) holds rows (`CDataRow`, an array of cells) under a
schema (`CRowMetaData`: column names, column classes and primary-key
columns). The container stores its rows in a map from primary key to row:
a single key column's value, a `:`-joined composite key, or an identity
counter when the schema has no key. It answers queries with **filter
clauses** (`CDataFilterClause` over `EqualsFilter`, `RangeFilter`,
`GEFilter`, `LEFilter` and `DateRangeFilter`). Those queries can be sped up
by a promoted primary-key filter or by **non-unique indices**
(`CDataCacheNonUniqueIndex`, buckets of rows by column value). Results come
back as a **row set** (`CDataRowSet`), a list with a JDBC-style cursor, and
can be sorted with `CDataComparator`. Cells are converted between Java
classes by `CDataConverter` under the codes of `CTypes`.

This project models that core in Dafny:

| file | module | models |
|---|---|---|
| base.dfy | `Base` | Java values (`Value`), classes, results and errors, integer narrowing, `String.split` on one character, ASCII case helpers |
| ctypes.dfy | `CTypes` | conversion codes, their names, and the SQL type of a Java class |
| converter.dfy | `Converter` | `CDataConverter.convertTo` on every source class and target code |
| row.dfy | `DataRow` | `CDataRow` as a class over an `array<Value>` |
| metadata.dfy | `MetaData` | `CRowMetaData` as a pure schema plus a class for its mutable fields; key construction and `equals` |
| comparator.dfy | `Comparator` | `CDataComparator.compare`, column by column |
| sorting.dfy | `RowSort` | `Collections.sort`, a stable insertion sort proved sorted and a permutation, and `Collections.reverse` |
| rowset.dfy | `RowSets` | `CDataRowSet`: adding rows, sorting, the cursor, current-row access |
| filters.dfy | `Filters` | the column filters, with lazy column-index resolution |
| index.dfy | `CacheIndex` | `CDataCacheNonUniqueIndex` and the index constructor checks |
| clause.dfy | `FilterClause` | `CDataFilterClause`: adding filters, promotion of key and index filters, matching |
| container.dfy | `Container` | `CDataCacheContainer`: insertion, retrieval, removal, merge, column updates, indices |
| joinclause.dfy | `JoinClause` | the clause `CDataCacheContainer.merge` builds for one source row |
| csvexport.dfy | `CsvExport` | `CExportCSVString`, the CSV text exporter |
| buildfile.dfy | `FileDispatch` | how `CBuildFromFile` chooses a reader from a file's extension |
| joda.dfy | `JodaTypes` | the class bookkeeping of the Joda bean bridge |

Java `null` is a `Value` (`Null`) or an `Option`. Every exception the
source throws becomes an `Err` of `Result`, with the exception's kind as the
error. Rows are shared objects: the container, its row sets and its index
buckets all refer to the same `Row`, as in the source.

## Model

| member | source | states |
|---|---|---|
| FileDispatch.LastIndexOf | casperdatasets-io/src/main/java/net/casper/io/file/in/CBuildFromFile.java:178 | the position of the last occurrence of the character, or -1 exactly when it does not occur; no occurrence follows it |
| FileDispatch.FileName | casperdatasets-io/src/main/java/net/casper/io/file/in/CBuildFromFile.java:177 | the file name is the whole tail of the path after its last '/': it holds no '/', and it is either the whole path or preceded by a '/' |
| FileDispatch.GetExtension | casperdatasets-io/src/main/java/net/casper/io/file/in/CBuildFromFile.java:175-185 | an extension, when there is one, is non-empty, dot-free and preceded in the file name by a non-empty stem and a dot |
| FileDispatch.GetExtensionNone | casperdatasets-io/src/main/java/net/casper/io/file/in/CBuildFromFile.java:178-182 | there is no extension exactly when the name has no dot, its only dot is its first character, or it ends with a dot |
| FileDispatch.ExtensionOf | casperdatasets-io/src/main/java/net/casper/io/file/in/CBuildFromFile.java:178-182 | the extension of stem.ext (dot-free, non-empty parts) is ext |
| FileDispatch.HiddenFileHasNoExtension | casperdatasets-io/src/main/java/net/casper/io/file/in/CBuildFromFile.java:180 | a name of a leading dot and no other dot has no extension |
| FileDispatch.TrailingDotHasNoExtension | casperdatasets-io/src/main/java/net/casper/io/file/in/CBuildFromFile.java:180 | a name ending in a dot has no extension |
| FileDispatch.CsvExtension | casperdatasets-io/src/main/java/net/casper/io/file/in/CBuildFromFile.java:178-182 | "data.csv" has extension "csv" |
| FileDispatch.ValueOf | casperdatasets-io/src/main/java/net/casper/io/file/in/CBuildFromFile.java:197-234 | the factory constant is found exactly when the text is its name, "XLS", "XLSX" or "CSV" |
| FileDispatch.SelectFactory | casperdatasets-io/src/main/java/net/casper/io/file/in/CBuildFromFile.java:97-121 | a missing file fails first; a name without an extension, or whose upper-cased extension names no factory, fails as unsupported; success holds exactly when the upper-cased extension names a factory, which is the one chosen |
| FileDispatch.SelectFactoryIgnoresCase | casperdatasets-io/src/main/java/net/casper/io/file/in/CBuildFromFile.java:116-117 | an extension and its upper-cased form select the same factory, or both fail |
| FileDispatch.MissingFileFirst | casperdatasets-io/src/main/java/net/casper/io/file/in/CBuildFromFile.java:98-100 | a missing file is reported as not found whatever its name |
| JodaTypes.EquivalentTypesIff | casperdatasets-joda/src/net/casper/io/joda/JodaBeanUtil.java:116-176 | two classes are equivalent exactly when equal or a wrapper and its own primitive, in either order |
| JodaTypes.EquivalentTypesReflexive | casperdatasets-joda/src/net/casper/io/joda/JodaBeanUtil.java:117-119 | every class is equivalent to itself |
| JodaTypes.BoxingPairsEquivalent | casperdatasets-joda/src/net/casper/io/joda/JodaBeanUtil.java:121-173 | each of the eight wrapper/primitive pairs is equivalent both ways |
| JodaTypes.EquivalentTypesSymmetric | casperdatasets-joda/src/net/casper/io/joda/JodaBeanUtil.java:116-176 | the relation is symmetric |
| JodaTypes.DistinctKindsNotEquivalent | casperdatasets-joda/src/net/casper/io/joda/JodaBeanUtil.java:121-175 | classes of two different primitive kinds are never equivalent |
| JodaTypes.LookupPropertyType | casperdatasets-joda/src/net/casper/io/joda/JodaBeanUtil.java:258-285 | a property class exists exactly for String, Character, boolean, int, double, Boolean, Integer and Double; any other class fails naming the class |
| JodaTypes.LookupPropertyTypeInjective | casperdatasets-joda/src/net/casper/io/joda/JodaBeanUtil.java:262-279 | different supported classes get different property classes |
| JodaTypes.UnsupportedExamples | casperdatasets-joda/src/net/casper/io/joda/JodaBeanUtil.java:280-283 | long, Long, float and char have no property class |
| JodaTypes.FillBeanArity | casperdatasets-joda/src/net/casper/io/joda/JodaBeanUtil.java:51-57 | fillBean proceeds exactly when names, types and values have equal lengths, with that many properties, and otherwise fails with an illegal-argument error |
| JodaTypes.BoxedPrimitiveType | casperdatasets-joda/src/net/casper/io/joda/CBuildFromJodaBeans.java:131-150 | the result is never primitive: a primitive class becomes its wrapper and any other class is returned as is |
| JodaTypes.BoxedPrimitiveTypeIdempotent | casperdatasets-joda/src/net/casper/io/joda/CBuildFromJodaBeans.java:131-150 | boxing twice is boxing once |
| JodaTypes.BoxedPrimitiveTypeEquivalent | casperdatasets-joda/src/net/casper/io/joda/CBuildFromJodaBeans.java:131-150 | a class is equivalent to its boxed class, both ways |
| JodaTypes.EquivalentIffSameBoxed | casperdatasets-joda/src/net/casper/io/joda/JodaBeanUtil.java:116-176 | two classes are equivalent exactly when they box to the same class |
| CTypes.ConvCodesAreEvenUpTo22 | casperdatasets/src/main/java/net/casper/data/model/CTypes.java:35-68 | the conversion codes are exactly the even numbers 2..22 |
| CTypes.ConvTypeDesc | casperdatasets/src/main/java/net/casper/data/model/CTypes.java:87-101 | each code 2..20 gets its own name (BOOLEAN, BYTE, DATE, DOUBLE, FLOAT, INTEGER, LONG, SHORT, STRING, TIME); the shared code 22 reads "TIMESTAMP", so "CHARACTER" is never returned; "Invalid Type Value" exactly for a non-code |
| CTypes.JavaObjType | casperdatasets/src/main/java/net/casper/data/model/CTypes.java:112-133 | -1 exactly for null and unlisted classes; Boolean gives BOOLEAN, Byte and Character CHAR, Integer INTEGER, Long and Short NUMERIC, Double DOUBLE, Float FLOAT, both date classes DATE, Time TIME, Timestamp TIMESTAMP, String VARCHAR |
| Base.Wrap8 | casperdatasets/src/main/java/net/casper/data/model/CDataConverter.java:102-103 | byteValue(): the byte congruent to the value modulo 2^8, the value itself when it already fits |
| Base.Wrap16 | casperdatasets/src/main/java/net/casper/data/model/CDataConverter.java:112-113 | shortValue(): the short congruent to the value modulo 2^16, the value itself when it already fits |
| Base.Wrap32 | casperdatasets/src/main/java/net/casper/data/model/CDataConverter.java:108-109 | intValue(): the int congruent to the value modulo 2^32, the value itself when it already fits |
| Converter.ToInteger | casperdatasets/src/main/java/net/casper/data/model/CDataConverter.java:237-246 | the result is 0 or 1, and 1 exactly for a true Boolean (null counts as false) |
| Converter.ConvertTo | casperdatasets/src/main/java/net/casper/data/model/CDataConverter.java:62-225 | a null value converts to null under every code |
| Converter.ConvertYieldsTarget | casperdatasets/src/main/java/net/casper/data/model/CDataConverter.java:62-225 | a successful conversion of a non-null value yields an object of the class the code names, and the code is one of the known conversion codes |
| Converter.ConvertKeepsRange | casperdatasets/src/main/java/net/casper/data/model/CDataConverter.java:69-144 | a value whose integer payload fits its Java width still fits after conversion, given that Java's parse methods return in-range numbers |
| Converter.NumberToBoolean | casperdatasets/src/main/java/net/casper/data/model/CDataConverter.java:75-78 | a Byte or other Number converts to BOOLEAN as false for 0, true for 1, and fails for anything else (after narrowing to int) |
| Converter.NumberNarrowing | casperdatasets/src/main/java/net/casper/data/model/CDataConverter.java:79-113 | Number to BYTE, SHORT, INTEGER and LONG is the Java narrowing conversion, with no range check, and Byte to BYTE is the identity |
| Converter.NarrowingWraps | casperdatasets/src/main/java/net/casper/data/model/CDataConverter.java:102-113 | narrowing wraps around: 300 as a byte is 44, 2^31 as an int is -2^31, and -2.75 as an int truncates to -2 |
| Converter.BooleanToBooleanByteShort | casperdatasets/src/main/java/net/casper/data/model/CDataConverter.java:165-177 | Boolean to BOOLEAN is the identity, and Boolean to BYTE or SHORT is 1 for true and 0 for false |
| Converter.BooleanToIntLong | casperdatasets/src/main/java/net/casper/data/model/CDataConverter.java:178-184 | Boolean to INTEGER or LONG is 1 for true and 0 for false |
| Converter.DatesKeepMilliseconds | casperdatasets/src/main/java/net/casper/data/model/CDataConverter.java:147-207 | a Timestamp or date converted to DATE, TIME or TIMESTAMP succeeds and keeps its milliseconds; a Timestamp becomes an sql Date under DATE, and a date stays as it is |
| Converter.CharacterAndTimestampShareCode | casperdatasets/src/main/java/net/casper/data/model/CDataConverter.java:147-221 | a Character converts only under CHARACTER or STRING; since TIMESTAMP and CHARACTER share code 22, a Character under TIMESTAMP and a Timestamp under CHARACTER come back unchanged |
| Converter.StringConversions | casperdatasets/src/main/java/net/casper/data/model/CDataConverter.java:120-144 | a String converts to BOOLEAN as equalsIgnoreCase("true") and never fails; to STRING it is itself; DATE, TIME, TIMESTAMP and CHARACTER fail |
| Converter.UnknownFails | casperdatasets/src/main/java/net/casper/data/model/CDataConverter.java:224 | a value of a class the converter does not know, or any code outside the conversion codes, fails |
| Converter.IntegerStringRoundTrip | casperdatasets/src/main/java/net/casper/data/model/CDataConverter.java:120-144 | an Integer written out with STRING and read back with INTEGER is the same Integer whenever parseInt inverts toString |
| DataRow.Row.Empty | casperdatasets/src/main/java/net/casper/data/model/CDataRow.java:44-46 | the no-argument row is a fresh array of zero cells |
| DataRow.Row.WithColumns | casperdatasets/src/main/java/net/casper/data/model/CDataRow.java:53-60 | fails exactly when fewer than one column is asked for; otherwise a fresh row of that many null cells |
| DataRow.Row.FromArray | casperdatasets/src/main/java/net/casper/data/model/CDataRow.java:68-76 | fails exactly for a null array; otherwise the new row holds the caller's array itself (aliasing, not a copy) |
| DataRow.Row.EnsureCardinality | casperdatasets/src/main/java/net/casper/data/model/CDataRow.java:86-99 | a size below 1 or below the current width leaves the row's array as it was; otherwise the row gets a fresh array holding the old cells followed by nulls up to the size |
| DataRow.Row.NumberColumns | casperdatasets/src/main/java/net/casper/data/model/CDataRow.java:106-108 | the number of cells is the array's length |
| DataRow.Row.GetValue | casperdatasets/src/main/java/net/casper/data/model/CDataRow.java:115-120 | succeeds exactly for an index inside the row and then returns that cell; the result agrees with the bounds-checked read used throughout the model |
| DataRow.Row.SetValue | casperdatasets/src/main/java/net/casper/data/model/CDataRow.java:129-134 | succeeds exactly for an index inside the row, writing that one cell in place; out of bounds nothing changes |
| DataRow.Row.SetRawData | casperdatasets/src/main/java/net/casper/data/model/CDataRow.java:153-160 | fails exactly for a null array, leaving the row alone; otherwise the row adopts the caller's array |
| DataRow.Row.ToMap | casperdatasets/src/main/java/net/casper/data/model/CDataRow.java:185-205 | no metadata gives an empty map; otherwise each column name is mapped to the cell at its position, and names whose position lies beyond the row are skipped |
| DataRow.RowMapKeys | casperdatasets/src/main/java/net/casper/data/model/CDataRow.java:193-202 | a name is a key of the map exactly when it is a column name whose position the row covers |
| DataRow.RowMapOfDistinct | casperdatasets/src/main/java/net/casper/data/model/CDataRow.java:193-202 | for a row as wide as a schema with distinct names, every column name maps to its own cell |
| MetaData.LabelsSpec | casperdatasets/src/main/java/net/casper/data/model/CRowMetaData.java:93-96 | the label map has exactly the column names as keys, and maps each to the position of its last occurrence |
| MetaData.LabelsOfDistinct | casperdatasets/src/main/java/net/casper/data/model/CRowMetaData.java:93-96 | with no duplicate names, the column at position i is labelled i |
| MetaData.LabelsInjective | casperdatasets/src/main/java/net/casper/data/model/CRowMetaData.java:93-96 | two different labelled names never share a position |
| MetaData.ContainsColumn | casperdatasets/src/main/java/net/casper/data/model/CRowMetaData.java:152-157 | true exactly for a non-null name that is one of the column names |
| MetaData.ColumnIndex | casperdatasets/src/main/java/net/casper/data/model/CRowMetaData.java:165-173 | succeeds exactly for a column name, returning a position that holds that name; an unknown name is an error naming it |
| MetaData.ColumnIndices | casperdatasets/src/main/java/net/casper/data/model/CRowMetaData.java:182-194 | a null or empty argument gives no positions; otherwise it succeeds exactly when every name is a column, giving each name's position in argument order |
| MetaData.IndicesOf | casperdatasets/src/main/java/net/casper/data/model/CRowMetaData.java:189-191 | succeeds exactly when every name is a column, with one position per name in order; a failure names one of the given names |
| MetaData.PrimaryKeyColumnIndices | casperdatasets/src/main/java/net/casper/data/model/CRowMetaData.java:203-211 | a null primary key array throws; otherwise the positions of the primary key columns in key order |
| MetaData.ColumnTypeAt | casperdatasets/src/main/java/net/casper/data/model/CRowMetaData.java:233-237 | succeeds exactly for an index inside the type array, returning that type |
| MetaData.ColumnType | casperdatasets/src/main/java/net/casper/data/model/CRowMetaData.java:220-225 | succeeds exactly for a column name, returning the type at its position |
| MetaData.ColumnTypesAt | casperdatasets/src/main/java/net/casper/data/model/CRowMetaData.java:246-258 | a null or empty argument gives no types; otherwise it succeeds exactly when every index is in range, giving the type at each index in order |
| MetaData.TypesAt | casperdatasets/src/main/java/net/casper/data/model/CRowMetaData.java:252-256 | succeeds exactly when every index is in range, with one type per index in order |
| MetaData.ValueAt | casperdatasets/src/main/java/net/casper/data/model/CDataRow.java:169-174 | the bounds check of a row read: succeeds exactly inside the row, otherwise an out-of-bounds error carrying the length and the index |
| MetaData.CreatePrimaryKeyOk | casperdatasets/src/main/java/net/casper/data/model/CRowMetaData.java:270-313 | for a row as wide as the schema whose key columns are all columns, the key derivation cannot fail |
| MetaData.CompositeKeyOk | casperdatasets/src/main/java/net/casper/data/model/CRowMetaData.java:297-307 | the composite-key loop cannot fail when every key column is a column and the row is as wide as the schema |
| MetaData.SingleColumnKey | casperdatasets/src/main/java/net/casper/data/model/CRowMetaData.java:275-288 | a null row fails; with one key column the key is that column's raw value, null included |
| MetaData.CompositeKeyStep | casperdatasets/src/main/java/net/casper/data/model/CRowMetaData.java:297-307 | one turn of the composite loop: a non-null value contributes its text, followed by ':' unless it is the last key column; a null contributes nothing |
| MetaData.TwoColumnKey | casperdatasets/src/main/java/net/casper/data/model/CRowMetaData.java:296-310 | over two key columns the key is the first value's text and ':' (if not null) followed by the second value's text (if not null) |
| MetaData.ThreeColumnKey | casperdatasets/src/main/java/net/casper/data/model/CRowMetaData.java:296-310 | over three key columns the key is each non-null value's text, with ':' after the first two |
| MetaData.CompositeExampleTwo | casperdatasets/src/main/java/net/casper/data/model/CRowMetaData.java:296-310 | ("x","y") gives "x:y" |
| MetaData.CompositeExampleNullMiddle | casperdatasets/src/main/java/net/casper/data/model/CRowMetaData.java:301-306 | a null middle value contributes nothing: ("x",null,"z") gives "x:z" |
| MetaData.CompositeExampleNullLast | casperdatasets/src/main/java/net/casper/data/model/CRowMetaData.java:301-306 | a null last value keeps the delimiter before it: ("x","y",null) gives "x:y:" |
| MetaData.CompositeKeyCollision | casperdatasets/src/main/java/net/casper/data/model/CRowMetaData.java:296-310 | composite keys are not injective: ("a:b","c") and ("a","b:c") get the same key |
| MetaData.MetaEqualsIff | casperdatasets/src/main/java/net/casper/data/model/CRowMetaData.java:323-384 | for schemas whose names and types line up (and where this side's key array is not the one that throws), equals answers without error and is true exactly for identical schemas that have a primary key array |
| MetaData.NoKeyNeverEqual | casperdatasets/src/main/java/net/casper/data/model/CRowMetaData.java:337-338 | a schema without a primary key array is not equal even to itself |
| MetaData.RowMetaData.Create | casperdatasets/src/main/java/net/casper/data/model/CRowMetaData.java:77-107 | fails exactly for null names or types, unequal lengths, or a primary key column that is not a column; otherwise a fresh, valid metadata object holding exactly the given arrays with its label map built |
| MetaData.RowMetaData.AddColumns | casperdatasets/src/main/java/net/casper/data/model/CRowMetaData.java:396-430 | fails exactly for null or unequal arrays or a name that is already a column, changing nothing; otherwise the new names and types follow the old ones, the key is kept and the label map stays consistent |
| MetaData.LabelsCovered | casperdatasets/src/main/java/net/casper/data/model/CRowMetaData.java:421-423 | relabelling every name of the longer list overrides every old label |
| MetaData.AddedColumnPosition | casperdatasets/src/main/java/net/casper/data/model/CRowMetaData.java:421-423 | after addColumns with distinct new names, the i-th added column is labelled with position old width + i |
| Comparator.NewComparator | casperdatasets/src/net/casper/data/model/CDataComparator.java:72-100 | succeeds exactly for non-null, non-empty indices of the same length as non-null types, with no negative index and no null type; the comparator then holds those indices and types |
| Comparator.StringCompareAntisym | casperdatasets/src/net/casper/data/model/CDataComparator.java:171-176 | String.compareTo is antisymmetric: swapping the strings negates the result |
| Comparator.StringCompareZero | casperdatasets/src/net/casper/data/model/CDataComparator.java:171-176 | String.compareTo is zero exactly for equal strings |
| Comparator.StringCompareTrans | casperdatasets/src/net/casper/data/model/CDataComparator.java:171-176 | String.compareTo is transitive on at-most |
| Comparator.Sign | casperdatasets/src/net/casper/data/model/CDataComparator.java:186-215 | the -1/0/1 of Integer, Date and Timestamp compareTo has the sign of the difference |
| Comparator.SignReal | casperdatasets/src/net/casper/data/model/CDataComparator.java:192-203 | the -1/0/1 of Double and Float compareTo has the sign of the difference |
| Comparator.TypeCompare | casperdatasets/src/net/casper/data/model/CDataComparator.java:171-226 | the per-column comparison succeeds exactly when both cells survive the cast the column type's branch performs |
| Comparator.TypeCompareAntisym | casperdatasets/src/net/casper/data/model/CDataComparator.java:171-226 | swapping the cells negates the per-column comparison |
| Comparator.TypeCompareTrans | casperdatasets/src/net/casper/data/model/CDataComparator.java:171-226 | the per-column comparison is a total preorder: at-most composes, and stays strict when either step is strict |
| Comparator.CompareFromAntisym | casperdatasets/src/net/casper/data/model/CDataComparator.java:133-246 | from any column the loop can reach, swapping the rows makes the walk fail exactly when it failed before and otherwise negates its result |
| Comparator.CompareAntisym | casperdatasets/src/net/casper/data/model/CDataComparator.java:116-251 | compare(a,b) fails exactly when compare(b,a) does, and otherwise the two are negatives of each other |
| Comparator.CompareSelf | casperdatasets/src/net/casper/data/model/CDataComparator.java:116-251 | a row that can be compared with itself ties with itself |
| Comparator.CompareFromTrans | casperdatasets/src/net/casper/data/model/CDataComparator.java:133-246 | from any column the loop can reach, at-most composes transitively |
| Comparator.CompareTrans | casperdatasets/src/net/casper/data/model/CDataComparator.java:116-251 | a <= b and b <= d give a <= d whenever a and d can be compared |
| Comparator.CompareNullRows | casperdatasets/src/net/casper/data/model/CDataComparator.java:119-121 | two null rows tie, and a null row sorts before any row |
| Comparator.FirstColumnNulls | casperdatasets/src/net/casper/data/model/CDataComparator.java:150-157 | on the first column two null cells end the comparison as a tie whatever later columns hold, and a single null cell sorts first |
| Comparator.LaterColumnNullsStop | casperdatasets/src/net/casper/data/model/CDataComparator.java:158-165 | after a tie on earlier columns, two null cells end the walk with that tie, without reading the later columns |
| Comparator.UnbranchedTypeTies | casperdatasets/src/net/casper/data/model/CDataComparator.java:222-226 | a column type without a branch (Long, Short, Character) compares every pair of cells as equal |
| Comparator.ThreeColumnExample | casperdatasets-test/src/net/casper/data/model/tests/CDataComparatorTest.java:15-32 | rows (1,false,2) and (1,false,1) over Integer, Boolean, Integer columns compare as 1 and -1, and each ties with itself |
| Comparator.CastFailureReported | casperdatasets/src/net/casper/data/model/CDataComparator.java:235-245 | a cell of the wrong class for its column fails the comparison with the column index, its type and both cells |
| RowSort.ByLaws | casperdatasets/src/net/casper/data/model/CDataComparator.java:116-251 | a well-formed comparator, seen as an ordering of cells, is antisymmetric and transitive, the laws Collections.sort relies on |
| RowSort.Reverse | casperdatasets/src/net/casper/data/model/CDataRowSet.java:156-157 | Collections.reverse: the i-th element of the result is the i-th from the end |
| RowSort.ReversePermutes | casperdatasets/src/net/casper/data/model/CDataRowSet.java:156-157 | reversal is a permutation |
| RowSort.InsertPermutes | casperdatasets/src/net/casper/data/model/CDataRowSet.java:149-153 | inserting an element adds exactly that element to the multiset |
| RowSort.SortPermutes | casperdatasets/src/net/casper/data/model/CDataRowSet.java:149-153 | a successful sort is a permutation of its input |
| RowSort.SortPermutesStep | casperdatasets/src/net/casper/data/model/CDataRowSet.java:149-153 | the step of the permutation proof: sorting p + [x] permutes it when sorting p does |
| RowSort.InsertSorted | casperdatasets/src/net/casper/data/model/CDataRowSet.java:149-153 | inserting into a sorted list keeps it sorted, grows it by one, and places the smaller of the head and the new element first |
| RowSort.SortSorted | casperdatasets/src/net/casper/data/model/CDataRowSet.java:149-153 | a successful sort orders its result: every element compares at most 0 with its successor |
| RowSort.InsertOk | casperdatasets/src/net/casper/data/model/CDataRowSet.java:149-153 | insertion cannot fail when the new element compares with every element of the list |
| RowSort.SortOk | casperdatasets/src/net/casper/data/model/CDataRowSet.java:149-153 | when every pair of rows can be compared, the sort does not throw |
| RowSort.SortedPairwise | casperdatasets/src/net/casper/data/model/CDataRowSet.java:149-153 | in a sorted list whose elements all compare, every earlier element compares at most 0 with every later one |
| RowSort.ReverseDescends | casperdatasets/src/net/casper/data/model/CDataRowSet.java:155-157 | the reverse of a sorted list descends: each element compares at least 0 with its successor |
| RowSort.InsertAtEnd | casperdatasets/src/net/casper/data/model/CDataRowSet.java:149-153 | an element no smaller than every element of the list is inserted at its end (the sort is stable) |
| RowSort.SortKeepsSorted | casperdatasets/src/net/casper/data/model/CDataRowSet.java:149-153 | sorting an already sorted, comparable list leaves it exactly as it was |
| RowSort.SortedPrefix | casperdatasets/src/net/casper/data/model/CDataRowSet.java:149-153 | dropping the last element of a sorted, comparable list keeps it sorted and comparable, and the last element tops the rest |
| RowSort.LastTops | casperdatasets/src/net/casper/data/model/CDataRowSet.java:149-153 | in a sorted, comparable list every element compares at most 0 with the last |
| RowSets.NextMove | casperdatasets/src/net/casper/data/model/CDataRowSet.java:349-361 | next() past the end does nothing and reports false; otherwise it steps forward and reports whether it landed on a row; from 0..n+1 the cursor stays in 0..n+1 |
| RowSets.PreviousMove | casperdatasets/src/net/casper/data/model/CDataRowSet.java:331-342 | previous() at 0 does nothing and reports false; otherwise it steps back and reports whether it landed on a row, never going below 0 |
| RowSets.FirstMove | casperdatasets/src/net/casper/data/model/CDataRowSet.java:305-312 | first() on an empty set reports false and keeps the cursor; otherwise it moves to row 1 |
| RowSets.LastMove | casperdatasets/src/net/casper/data/model/CDataRowSet.java:318-325 | last() on an empty set reports false and keeps the cursor; otherwise it moves to row n |
| RowSets.AbsoluteMove | casperdatasets/src/net/casper/data/model/CDataRowSet.java:370-380 | absolute(r) succeeds exactly for r in 1..n and moves there; otherwise the cursor stays |
| RowSets.RelativeMove | casperdatasets/src/net/casper/data/model/CDataRowSet.java:389-399 | relative(k) succeeds exactly when cursor + k is in 1..n and moves there; otherwise the cursor stays |
| RowSets.NextThenPrevious | casperdatasets/src/net/casper/data/model/CDataRowSet.java:331-361 | a successful next() is undone by previous(), which reports a row unless it is back at 0 |
| RowSets.AbsoluteIsRelative | casperdatasets/src/net/casper/data/model/CDataRowSet.java:370-399 | absolute(r) and relative(r - cursor) land in the same place with the same answer |
| RowSets.KeyedRows | casperdatasets/src/net/casper/data/model/CDataRowSet.java:149-150 | each row is paired with a snapshot of its cells, in list order |
| RowSets.Items | casperdatasets/src/net/casper/data/model/CDataRowSet.java:149-150 | the rows of a keyed list, in order |
| RowSets.SortWithoutColumnsFails | casperdatasets/src/net/casper/data/model/CDataRowSet.java:144-146 | with a null or empty list of sort columns the comparator cannot be built, so sorting fails |
| RowSets.SortPlanOrders | casperdatasets/src/net/casper/data/model/CDataRowSet.java:143-157 | a successful ascending sort permutes the rows and orders every neighbour pair by the comparator; the descending result is exactly its reverse |
| RowSets.SortPlanPermutes | casperdatasets/src/net/casper/data/model/CDataRowSet.java:143-157 | in either direction a successful sort is a permutation of the rows |
| RowSets.SortPlanLength | casperdatasets/src/net/casper/data/model/CDataRowSet.java:143-157 | a successful sort keeps the number of rows |
| RowSets.ItemsPermute | casperdatasets/src/net/casper/data/model/CDataRowSet.java:149-157 | the rows of two permuted keyed lists are permutations of each other |
| RowSets.ItemsAppend | casperdatasets/src/net/casper/data/model/CDataRowSet.java:149-157 | the rows of a concatenation are the concatenation of the rows |
| RowSets.ListingPermutes | casperdatasets/src/main/java/net/casper/data/model/CDataCacheContainer.java:474-489 | a listing is a permutation of rows of the schema's width, and without a sort list it is the rows themselves in order |
| RowSets.ListingLength | casperdatasets/src/main/java/net/casper/data/model/CDataCacheContainer.java:474-489 | a listing has one entry per row |
| RowSets.RowSet.Create | casperdatasets/src/net/casper/data/model/CDataRowSet.java:77-84 | null metadata fails; otherwise an empty row set over that metadata with the cursor before the first row |
| RowSets.RowSet.Size | casperdatasets/src/net/casper/data/model/CDataRowSet.java:165-175 | the size is the list length |
| RowSets.RowSet.AddData | casperdatasets/src/net/casper/data/model/CDataRowSet.java:98-114 | a null or empty batch changes nothing; a null row or a row of the wrong width fails with the list unchanged; otherwise the rows follow the existing ones in order; the cursor is untouched |
| RowSets.RowSet.SortByColumn | casperdatasets/src/net/casper/data/model/CDataRowSet.java:137-158 | with the cursor past 0 it fails with the list unchanged; otherwise it fails exactly when building the comparator or sorting fails, leaving the list, and on success the list is the ascending sort of the rows by their cells, reversed when descending |
| RowSets.RowSet.IsBeforeFirst | casperdatasets/src/net/casper/data/model/CDataRowSet.java:252-254 | true exactly at cursor 0 |
| RowSets.RowSet.IsAfterLast | casperdatasets/src/net/casper/data/model/CDataRowSet.java:260-262 | true exactly past the last row |
| RowSets.RowSet.IsFirst | casperdatasets/src/net/casper/data/model/CDataRowSet.java:268-270 | true exactly at cursor 1 |
| RowSets.RowSet.IsLast | casperdatasets/src/net/casper/data/model/CDataRowSet.java:276-278 | true exactly at cursor n, so an empty set at cursor 0 counts as last |
| RowSets.RowSet.BeforeFirst | casperdatasets/src/net/casper/data/model/CDataRowSet.java:283-285 | the cursor becomes 0, the rows untouched |
| RowSets.RowSet.Reset | casperdatasets/src/net/casper/data/model/CDataRowSet.java:290-292 | the cursor becomes 0, the rows untouched |
| RowSets.RowSet.AfterLast | casperdatasets/src/net/casper/data/model/CDataRowSet.java:297-299 | the cursor becomes n + 1, the rows untouched |
| RowSets.RowSet.First | casperdatasets/src/net/casper/data/model/CDataRowSet.java:305-312 | the move and the answer are those of FirstMove, and the cursor stays in 0..n+1 |
| RowSets.RowSet.Last | casperdatasets/src/net/casper/data/model/CDataRowSet.java:318-325 | the move and the answer are those of LastMove, and the cursor stays in 0..n+1 |
| RowSets.RowSet.Previous | casperdatasets/src/net/casper/data/model/CDataRowSet.java:331-342 | the move and the answer are those of PreviousMove, and the cursor stays in 0..n+1 |
| RowSets.RowSet.Next | casperdatasets/src/net/casper/data/model/CDataRowSet.java:349-361 | the move and the answer are those of NextMove, and the cursor stays in 0..n+1 |
| RowSets.RowSet.Absolute | casperdatasets/src/net/casper/data/model/CDataRowSet.java:370-380 | the move and the answer are those of AbsoluteMove, and the cursor stays in 0..n+1 |
| RowSets.RowSet.Relative | casperdatasets/src/net/casper/data/model/CDataRowSet.java:389-399 | the move and the answer are those of RelativeMove, and the cursor stays in 0..n+1 |
| RowSets.RowSet.GetCurrentRow | casperdatasets/src/net/casper/data/model/CDataRowSet.java:407-427 | succeeds exactly when the cursor is on a row (1..n) and returns that row object; otherwise an error carrying the cursor |
| RowSets.RowSet.GetObject | casperdatasets/src/net/casper/data/model/CDataRowSet.java:717-719 | succeeds exactly when the cursor is on a row and the index is inside it, returning that cell |
| RowSets.RowSet.GetObjectByName | casperdatasets/src/net/casper/data/model/CDataRowSet.java:568-570 | an unknown column name fails; otherwise the cell at the column's position in the current row, under the same conditions as GetObject |
| RowSets.RowSet.SetValue | casperdatasets/src/net/casper/data/model/CDataRowSet.java:745-748 | succeeds exactly when the cursor is on a row and the index is inside it, writing that one cell of the shared row object; on failure the row is unchanged |
| RowSets.RowSet.SetValueByName | casperdatasets/src/net/casper/data/model/CDataRowSet.java:734-736 | an unknown column name fails before any write; otherwise as SetValue at the column's position |
| RowSets.RowSet.GetColumnValues | casperdatasets/src/net/casper/data/model/CDataRowSet.java:217-231 | no rows give no values whatever the name; otherwise an unknown name fails, a row too short for the column fails, and on success the column's values in list order |
| RowSets.RowSet.Added | casperdatasets/src/net/casper/data/model/CDataRowSet.java:77-114 | a new row set followed by addData succeeds exactly when every row is present and as wide as the schema, holding those rows in order with the cursor at 0 |
| RowSets.RowSet.Listed | casperdatasets/src/main/java/net/casper/data/model/CDataCacheContainer.java:474-489 | a new row set over the rows, sorted when a non-empty sort list is given: it fails exactly when the listing fails and otherwise holds the listing with the cursor at 0 |
| Filters.Eval | casperdatasets/src/main/java/net/casper/data/model/filters/EqualsFilter.java:93-129 | EqualsFilter: fails exactly when the column is outside the row, and otherwise is true exactly when some match value equals the cell, flipped when negated. Range/GE/LE: succeed exactly for a null or Number cell inside the row, a null never matching and a number matching exactly when it is within the bounds; every failure is wrapped as "could not match". DateRangeFilter: a match is a date cell within the given bounds, and with at least one bound a date cell always gets an answer |
| Filters.ResolveIndex | casperdatasets/src/main/java/net/casper/data/model/filters/CDataFilter.java:81-97 | a resolved index (>= 0) is kept; an unresolved one succeeds exactly when there is a meta definition holding the column name, giving that column's position, and otherwise fails with getColumnIndex's error |
| Filters.IndexAfter | casperdatasets/src/main/java/net/casper/data/model/filters/CDataFilter.java:85-96 | after doesMatch, a resolved column index is unchanged |
| Filters.NegationComplement | casperdatasets/src/main/java/net/casper/data/model/filters/EqualsFilter.java:125-128 | a negated EqualsFilter fails exactly when the plain one does and otherwise gives the opposite answer |
| Filters.NullMatchesNull | casperdatasets/src/main/java/net/casper/data/model/filters/EqualsFilter.java:105-111 | a null match value matches a null cell |
| Filters.NullNeverInRange | casperdatasets/src/net/casper/data/model/filters/RangeFilter.java:84-86 | a null cell is never matched by a range, GE, LE or date range filter |
| Filters.NonNumberFails | casperdatasets/src/net/casper/data/model/filters/RangeFilter.java:84-106 | a non-null cell that is not a Number makes a numeric filter fail rather than answer false |
| Filters.RangeIsGEAndLE | casperdatasets/src/net/casper/data/model/filters/RangeFilter.java:90-101 | a range filter fails exactly when the GE and LE filters on its two bounds fail, and otherwise matches exactly when both of them do |
| Filters.ResolvedIndexIsSticky | casperdatasets/src/main/java/net/casper/data/model/filters/CDataFilter.java:85 | once the index is resolved, doesMatch and the index after it do not depend on the meta definition, even after setMetaDefinition with another schema |
| Filters.ResolutionIdempotent | casperdatasets/src/main/java/net/casper/data/model/filters/CDataFilter.java:81-97 | after a successful resolution a second doesMatch has nothing left to resolve and answers as the first did |
| Filters.FreshDateRangeFails | casperdatasets/src/main/java/net/casper/data/model/filters/DateRangeFilter.java:62-67 | a DateRangeFilter never resolves its index, so a fresh one (index -1) fails with a bounds error |
| Filters.UnboundedDateRangeFails | casperdatasets/src/main/java/net/casper/data/model/filters/DateRangeFilter.java:77-81 | with neither bound, a date cell makes the upper-bound comparison throw |
| Filters.Filter.Create | casperdatasets/src/main/java/net/casper/data/model/filters/CDataFilter.java:51-59 | fails exactly for a null column name, an EqualsFilter with no values, a RangeFilter whose lower bound is not below its upper bound, or a DateRangeFilter with both bounds given in that case; otherwise a fresh filter with the column index unresolved (-1) and no meta definition |
| Filters.Filter.CreateEquals | casperdatasets/src/main/java/net/casper/data/model/filters/EqualsFilter.java:54-81 | fails exactly for a null column name or null or empty match values; otherwise a fresh EqualsFilter holding exactly those values and the negation flag |
| Filters.Filter.MatchValues | casperdatasets/src/main/java/net/casper/data/model/filters/EqualsFilter.java:137-139 | getMatchValues returns the array given to the constructor |
| Filters.Filter.ColumnName | casperdatasets/src/main/java/net/casper/data/model/filters/CDataFilter.java:104-106 | returns the stored column name |
| Filters.Filter.ColumnIndex | casperdatasets/src/main/java/net/casper/data/model/filters/CDataFilter.java:112-114 | returns the stored column index |
| Filters.Filter.MetaDefinition | casperdatasets/src/main/java/net/casper/data/model/filters/CDataFilter.java:120-122 | returns the stored meta definition |
| Filters.Filter.SetMetaDefinition | casperdatasets/src/main/java/net/casper/data/model/filters/CDataFilter.java:128-130 | sets the meta definition and leaves the column index alone |
| Filters.Filter.CheckColumnIndexInitialized | casperdatasets/src/main/java/net/casper/data/model/filters/CDataFilter.java:81-97 | succeeds exactly when ResolveIndex does, storing the resolved index; on failure the index is unchanged; the meta definition is never changed |
| Filters.Filter.DoesMatch | casperdatasets/src/main/java/net/casper/data/model/filters/EqualsFilter.java:93-129 | answers as the pure Matches of the filter's fields and the row's cells (every kind but DateRangeFilter resolving the index first), and leaves the column index as IndexAfter says |
| CacheIndex.IndexAllSpec | casperdatasets/src/main/java/net/casper/data/model/CDataCacheNonUniqueIndex.java:121-135 | after indexing a batch a value has a bucket exactly when it had one or occurs in the batch, and its bucket is the old bucket followed by the batch's rows with that value, in batch order |
| CacheIndex.IndexAllStep | casperdatasets/src/main/java/net/casper/data/model/CDataCacheNonUniqueIndex.java:121-135 | the inductive step of IndexAllSpec: the statement for a batch extends to the batch with one more row |
| CacheIndex.BatchSnoc | casperdatasets/src/main/java/net/casper/data/model/CDataCacheNonUniqueIndex.java:121-135 | indexing one more row at the end of a batch is one more append, and selects that row exactly when its value matches |
| CacheIndex.AppendSpec | casperdatasets/src/main/java/net/casper/data/model/CDataCacheNonUniqueIndex.java:126-134 | indexing one row gives its value a bucket, and only that bucket grows, by the row at its end |
| CacheIndex.IndexedRowsAreFound | casperdatasets/src/main/java/net/casper/data/model/CDataCacheNonUniqueIndex.java:121-135 | every indexed row lands in the bucket of its own value |
| CacheIndex.SelectContains | casperdatasets/src/main/java/net/casper/data/model/CDataCacheNonUniqueIndex.java:121-135 | a row of the batch is among the batch's rows with its own value |
| CacheIndex.GatherMembers | casperdatasets/src/main/java/net/casper/data/model/CDataCacheNonUniqueIndex.java:84-104 | get(keys) returns a row exactly when it is in the bucket of one of the keys |
| CacheIndex.GatherMembersStep | casperdatasets/src/main/java/net/casper/data/model/CDataCacheNonUniqueIndex.java:91-95 | the inductive step of GatherMembers: one more key at the end |
| CacheIndex.GatherAppend | casperdatasets/src/main/java/net/casper/data/model/CDataCacheNonUniqueIndex.java:91-95 | looking up two key lists one after the other gives the concatenation of the two results, so duplicate keys repeat their bucket |
| CacheIndex.CellsAt | casperdatasets/src/main/java/net/casper/data/model/CDataCacheNonUniqueIndex.java:125 | the cells of the indexed column, one per row, in order |
| CacheIndex.IndexStep | casperdatasets/src/main/java/net/casper/data/model/CDataCacheNonUniqueIndex.java:121-135 | indexing one more row extends the fold by one append |
| CacheIndex.PrefixCells | casperdatasets/src/main/java/net/casper/data/model/CDataCacheNonUniqueIndex.java:121-125 | the cells read one by one from a prefix of the rows are that prefix's column cells |
| CacheIndex.FirstShort | casperdatasets/src/main/java/net/casper/data/model/CDataCacheNonUniqueIndex.java:121-125 | the point where the index loop stops is within the batch, and every row before it is wide enough for the column |
| CacheIndex.FirstShortCovers | casperdatasets/src/main/java/net/casper/data/model/CDataCacheNonUniqueIndex.java:121-125 | the loop stops early exactly at a row too narrow for the column, and runs through exactly when every row is wide enough |
| CacheIndex.FirstShortAt | casperdatasets/src/main/java/net/casper/data/model/CDataCacheNonUniqueIndex.java:121-125 | the stopping point is the first narrow row after a prefix of wide-enough rows |
| CacheIndex.IndexRows | casperdatasets/src/main/java/net/casper/data/model/CDataCacheNonUniqueIndex.java:121-135 | the index loop appends each row to its cell's bucket until the first row too narrow for the column, where it stops with that row's bounds error; it runs through exactly when every row is wide enough |
| CacheIndex.NonUniqueIndex.Create | casperdatasets/src/main/java/net/casper/data/model/CDataCacheIndex.java:52-63 | fails exactly for a null column name or a negative column index; otherwise a fresh, empty index on that column |
| CacheIndex.NonUniqueIndex.ColumnName | casperdatasets/src/main/java/net/casper/data/model/CDataCacheIndex.java:126-128 | returns the stored column name |
| CacheIndex.NonUniqueIndex.ColumnIndex | casperdatasets/src/main/java/net/casper/data/model/CDataCacheIndex.java:134-136 | returns the stored column index |
| CacheIndex.NonUniqueIndex.Contains | casperdatasets/src/main/java/net/casper/data/model/CDataCacheNonUniqueIndex.java:54-60 | true exactly when the key has a bucket |
| CacheIndex.NonUniqueIndex.Get | casperdatasets/src/main/java/net/casper/data/model/CDataCacheNonUniqueIndex.java:65-79 | null gives no rows; any other key gives its bucket in insertion order, or no rows when it has none |
| CacheIndex.NonUniqueIndex.GetMany | casperdatasets/src/main/java/net/casper/data/model/CDataCacheNonUniqueIndex.java:84-104 | null or no keys give no rows; otherwise the buckets of the keys concatenated in key order, duplicates kept |
| CacheIndex.NonUniqueIndex.Index | casperdatasets/src/main/java/net/casper/data/model/CDataCacheNonUniqueIndex.java:111-139 | null or no rows change nothing; otherwise each row up to the first one too narrow for the column is appended to its cell's bucket, the call fails exactly when there is such a row, and the count grows by the batch length only when all rows were indexed |
| CacheIndex.NonUniqueIndex.Update | casperdatasets/src/main/java/net/casper/data/model/CDataCacheNonUniqueIndex.java:146-153 | clears the buckets and the count, then indexes the rows, so the result depends only on the new rows |
| CacheIndex.NullKeyAsymmetry | casperdatasets/src/main/java/net/casper/data/model/CDataCacheNonUniqueIndex.java:68-69 | get(null) gives no rows while a null inside get(keys) finds the rows whose cell is null |
| FilterClause.PkMatches | casperdatasets/src/main/java/net/casper/data/model/CDataCacheContainer.java:973-991 | the primary-key hits are stored rows, at most one per key, and every non-null key present in the store contributes its row |
| FilterClause.PkMatchesAppend | casperdatasets/src/main/java/net/casper/data/model/CDataCacheContainer.java:979-988 | hits come in the order of their keys: the hits of a + b are those of a followed by those of b |
| FilterClause.PkPosition | casperdatasets/src/net/casper/data/model/filters/CDataFilterClause.java:254-269 | the position of the first equality filter on the key column: no earlier filter is one, and the filter there is one unless no such filter exists |
| FilterClause.NoteAllSpec | casperdatasets/src/net/casper/data/model/filters/CDataFilterClause.java:279-292 | after the index loop a column is recorded exactly when an equality filter on that indexed column is in the list (or it was recorded before), the filter kept is the last such filter, and the record stays consistent |
| FilterClause.NoteAllOrder | casperdatasets/src/net/casper/data/model/filters/CDataFilterClause.java:279-292 | the index loop keeps the record consistent: its key order lists each recorded column once |
| FilterClause.FirstRecordedIsFirstIndexed | casperdatasets/src/net/casper/data/model/filters/CDataFilterClause.java:144-151 | starting from nothing, the first recorded column is that of the first equality filter on an indexed column in the list |
| FilterClause.NoEarlierNotes | casperdatasets/src/net/casper/data/model/filters/CDataFilterClause.java:279-292 | a list without an equality filter on an indexed column records nothing |
| FilterClause.PlanOfFails | casperdatasets/src/net/casper/data/model/filters/CDataFilterClause.java:232-295 | planning fails exactly when nothing is promoted yet and either the primary-key array is missing or it is empty while an equality filter is listed |
| FilterClause.PlanOfKeepsFilters | casperdatasets/src/net/casper/data/model/filters/CDataFilterClause.java:254-275 | planning only moves a filter from the list into the promoted slot: list plus promoted filter is the same multiset of filters, and an already promoted filter stays |
| FilterClause.PlanOfPromotesFirst | casperdatasets/src/net/casper/data/model/filters/CDataFilterClause.java:254-275 | with one key column, a filter is promoted exactly when some equality filter on that column is listed, and it is the first one |
| FilterClause.Probes | casperdatasets/src/net/casper/data/model/filters/CDataFilterClause.java:169-177 | each filter's kind, column index and column name, position by position |
| FilterClause.RowPassesAll | casperdatasets/src/net/casper/data/model/filters/CDataFilterClause.java:166-186 | a row passes exactly when every filter matches it |
| FilterClause.RowFailsAt | casperdatasets/src/net/casper/data/model/filters/CDataFilterClause.java:171-180 | a failing row fails through the first filter that fails, every earlier filter having matched |
| FilterClause.Scan | casperdatasets/src/net/casper/data/model/filters/CDataFilterClause.java:162-189 | the scan keeps no more rows than it was given |
| FilterClause.ScanOk | casperdatasets/src/net/casper/data/model/filters/CDataFilterClause.java:162-189 | the scan succeeds exactly when every candidate row is decided without failure |
| FilterClause.ScanMembers | casperdatasets/src/net/casper/data/model/filters/CDataFilterClause.java:162-189 | a successful scan keeps exactly the candidate rows that pass every filter |
| FilterClause.ScanStep | casperdatasets/src/net/casper/data/model/filters/CDataFilterClause.java:166-186 | one more candidate row adds that row to the kept rows when it passes, keeps them when it does not, and propagates its failure |
| FilterClause.ScanErrSticks | casperdatasets/src/net/casper/data/model/filters/CDataFilterClause.java:166-186 | a failure on some row is the failure of the whole match |
| FilterClause.ScanNoFilters | casperdatasets/src/net/casper/data/model/filters/CDataFilterClause.java:166-186 | with no filters left, every candidate row is kept |
| FilterClause.ResolveAgain | casperdatasets/src/net/casper/data/model/filters/CDataFilterClause.java:174-175 | a filter whose column index has been resolved decides as before, and resolving again leaves the index unchanged |
| FilterClause.RowPassesResolved | casperdatasets/src/net/casper/data/model/filters/CDataFilterClause.java:171-180 | filters whose indexes were resolved during earlier rows decide each later row as they would have at the start |
| FilterClause.ScanResolved | casperdatasets/src/net/casper/data/model/filters/CDataFilterClause.java:166-186 | so the rows a match keeps do not depend on which rows resolved the indexes |
| FilterClause.SettledScan | casperdatasets/src/net/casper/data/model/filters/CDataFilterClause.java:166-186 | after a match the filters' own fields still select the same rows |
| FilterClause.PkNegationIgnored | casperdatasets/src/net/casper/data/model/filters/CDataFilterClause.java:126-133 | a negated promoted equality filter fetches the same rows as the plain one: the primary-key lookup uses only its values |
| FilterClause.Clause.constructor | casperdatasets/src/net/casper/data/model/filters/CDataFilterClause.java:59-61 | a new clause has no filters, no meta definition, no container, no promoted filter and no recorded index filters |
| FilterClause.Clause.Size | casperdatasets/src/net/casper/data/model/filters/CDataFilterClause.java:72-77 | the number of listed filters plus one for a promoted filter, which is the length of getAllFilters |
| FilterClause.Clause.AllFilters | casperdatasets/src/net/casper/data/model/filters/CDataFilterClause.java:318-328 | the promoted filter, when there is one, at the front, followed by the list |
| FilterClause.Clause.AddFilter | casperdatasets/src/net/casper/data/model/filters/CDataFilterClause.java:84-95 | null is refused with an error and the clause is unchanged; any other filter is appended, nothing else changes |
| FilterClause.Clause.SetMetaDefinition | casperdatasets/src/net/casper/data/model/filters/CDataFilterClause.java:98-101 | only the meta definition changes |
| FilterClause.Clause.GetFilter | casperdatasets/src/net/casper/data/model/filters/CDataFilterClause.java:304-311 | the filter at a listed position; a position at or past the end fails with the "doesn't exist" error, a negative one with an index-out-of-bounds |
| FilterClause.Clause.SetCacheContainerCallbackOptimization | casperdatasets/src/net/casper/data/model/filters/CDataFilterClause.java:203-295 | the container is set, and list, promoted filter, record and outcome are those PlanOf gives for the old fields; the size of the clause does not change |
| FilterClause.Clause.FirstPkCandidate | casperdatasets/src/net/casper/data/model/filters/CDataFilterClause.java:254-269 | the promotion loop stops at the first equality filter on the single key column; with no key column, at the first equality filter |
| FilterClause.Clause.RecordIndexed | casperdatasets/src/net/casper/data/model/filters/CDataFilterClause.java:279-292 | the record afterwards is NoteAll of the old record over the list; nothing else changes |
| FilterClause.Clause.Match | casperdatasets/src/net/casper/data/model/filters/CDataFilterClause.java:111-191 | with no filters, all rows; otherwise the candidates (primary-key hits, the first recorded index's buckets, or all rows), failing when that lookup fails, filtered by the scan of the filters as they were; filters end settled and given the meta definition |
| FilterClause.Clause.ScanRows | casperdatasets/src/net/casper/data/model/filters/CDataFilterClause.java:162-189 | the loop over candidates yields exactly Scan of them |
| FilterClause.Clause.RowMatches | casperdatasets/src/net/casper/data/model/filters/CDataFilterClause.java:168-183 | the inner loop yields exactly RowPasses for the row |
| FilterClause.Clause.MatchAt | casperdatasets/src/net/casper/data/model/filters/CDataFilterClause.java:173-178 | filter j, given the meta definition, answers as its probe from the start of the match |
| Base.Pieces | casperdatasets-ext/src/net/casper/ext/out/CExportCSVString.java:70-72 | splitting at a one-character separator gives at least one piece and no piece holds the separator |
| Base.PiecesJoin | casperdatasets-ext/src/net/casper/ext/out/CExportCSVString.java:70-72 | joining the pieces with the separator gives back the text |
| Base.PiecesConcat | casperdatasets-ext/src/net/casper/ext/out/CExportCSVString.java:70-72 | a separator between two texts splits them into the pieces of the first followed by the pieces of the second |
| Base.PiecesOfPlain | casperdatasets-ext/src/net/casper/ext/out/CExportCSVString.java:70-72 | a text without the separator is a single piece |
| Base.DropTrailingEmpty | casperdatasets-ext/src/net/casper/ext/out/CExportCSVString.java:70-72 | what String.split keeps: a prefix of the pieces not ending in an empty piece, only empty pieces dropped |
| Base.JavaSplit | casperdatasets-ext/src/net/casper/ext/out/CExportCSVString.java:70-72 | String.split at one character: no piece holds the separator, and a text without it is its own single piece |
| Base.JavaSplitRoundTrip | casperdatasets-ext/src/net/casper/ext/out/CExportCSVString.java:70-72 | a selection that does not end in a comma splits into names that join back to it |
| Base.LastPieceNotEmpty | casperdatasets-ext/src/net/casper/ext/out/CExportCSVString.java:70-72 | a text not ending in the separator has a non-empty last piece |
| Base.SplitExamples | casperdatasets-ext/src/net/casper/ext/out/CExportCSVString.java:70-72 | "a,b,," splits into a and b: trailing empty names are dropped |
| Base.SplitLoneSeparator | casperdatasets-ext/src/net/casper/ext/out/CExportCSVString.java:70-72 | "," splits into no names at all, and "" into the single empty name |
| CsvExport.FirstNull | casperdatasets-ext/src/net/casper/ext/out/CExportCSVString.java:161-163 | the position of the first null among the items before the last, where the write loop throws |
| CsvExport.Emit | casperdatasets-ext/src/net/casper/ext/out/CExportCSVString.java:158-165 | a line is written in full exactly when there is an item and no item before the last is null; no items fails with an index-out-of-bounds for -1, a null earlier item with a NullPointerException |
| CsvExport.LeadSnoc | casperdatasets-ext/src/net/casper/ext/out/CExportCSVString.java:161-163 | one more turn of the write loop appends the item and ", " |
| CsvExport.EmitRoundTrip | casperdatasets-ext/src/net/casper/ext/out/CExportCSVString.java:158-165 | a written line, its separator dropped and split at ", ", gives back the text of each item ("null" for a null last item) when no item holds a comma |
| CsvExport.EmitLine | casperdatasets-ext/src/net/casper/ext/out/CExportCSVString.java:158-165 | a full line is the earlier items each followed by ", ", then the last item's text, then the line separator |
| CsvExport.NoEscaping | casperdatasets-ext/src/net/casper/ext/out/CExportCSVString.java:158-165 | items are not quoted or escaped: an item holding ", " prints like two items |
| CsvExport.FirstMatch | casperdatasets-ext/src/net/casper/ext/out/CExportCSVString.java:103-108 | the first column equal to the name ignoring case: it matches, no earlier one does, and None means none does |
| CsvExport.Resolution | casperdatasets-ext/src/net/casper/ext/out/CExportCSVString.java:98-116 | one recorded position per selected name in order, each the first case-insensitive match, stopping before the first name that matches nothing; it covers all names exactly when all resolve |
| CsvExport.Project | casperdatasets-ext/src/net/casper/ext/out/CExportCSVString.java:145-151 | the picked cells are the row's cells at the recorded positions, in order |
| CsvExport.ProjectSelected | casperdatasets-ext/src/net/casper/ext/out/CExportCSVString.java:137-156 | once every selected name resolved, the k-th written cell is the row's cell under the first column named like the k-th selection |
| CsvExport.CsvStringExporter.constructor | casperdatasets-ext/src/net/casper/ext/out/CExportCSVString.java:69-74 | the selection is the given text split at commas, or none; nothing is written and no position recorded |
| CsvExport.CsvStringExporter.Close | casperdatasets-ext/src/net/casper/ext/out/CExportCSVString.java:76-79 | close returns the text written so far, the same as getCSVString |
| CsvExport.CsvStringExporter.SetName | casperdatasets-ext/src/net/casper/ext/out/CExportCSVString.java:81-84 | writes nothing and records nothing |
| CsvExport.CsvStringExporter.SetColumnTypes | casperdatasets-ext/src/net/casper/ext/out/CExportCSVString.java:125-128 | writes nothing and records nothing |
| CsvExport.CsvStringExporter.SetPrimaryKeyColumns | casperdatasets-ext/src/net/casper/ext/out/CExportCSVString.java:130-134 | writes nothing and records nothing |
| CsvExport.CsvStringExporter.Open | casperdatasets-ext/src/net/casper/ext/out/CExportCSVString.java:167-170 | writes nothing and records nothing |
| CsvExport.CsvStringExporter.Write | casperdatasets-ext/src/net/casper/ext/out/CExportCSVString.java:158-165 | the buffer grows by exactly Emit's text and the outcome is Emit's, recorded positions unchanged |
| CsvExport.CsvStringExporter.SetColumnNames | casperdatasets-ext/src/net/casper/ext/out/CExportCSVString.java:86-123 | without a selection, the header is every column name when wanted; with one, the resolved positions are appended, an unmatched name fails with an IOException and writes no header, otherwise the selected names are written as the header when wanted |
| CsvExport.CsvStringExporter.WriteRow | casperdatasets-ext/src/net/casper/ext/out/CExportCSVString.java:136-156 | without a selection the whole row is written; with one, the cells at the recorded positions are written, and a position beyond the row fails before anything is written |
| CsvExport.PositionOf | casperdatasets-ext/src/net/casper/ext/out/CExportCSVString.java:102-108 | the search loop returns the first case-insensitive match, or -1 exactly when there is none |
| CsvExport.ResolutionGrows | casperdatasets-ext/src/net/casper/ext/out/CExportCSVString.java:98-116 | each resolved name appends its first match to the recorded positions |
| CsvExport.ResolutionStops | casperdatasets-ext/src/net/casper/ext/out/CExportCSVString.java:110-113 | the first unmatched name ends the positions and makes the selection unresolvable |
| Container.ValuesOf | casperdatasets/src/main/java/net/casper/data/model/CDataCacheContainer.java:497-504 | the stored rows in map order, one per listed key, each the row stored under that key |
| Container.BatchKeys | casperdatasets/src/main/java/net/casper/data/model/CDataCacheContainer.java:608-617 | one key per row of the batch: the identity counter advanced once more for each row when there is no primary key, otherwise the row's primary key |
| Container.FiledOrdered | casperdatasets/src/main/java/net/casper/data/model/CDataCacheContainer.java:608-624 | filing a batch keeps every key listed once and exactly the stored ones, keeps the counter a Java int, keeps the old keys in their places and adds at most one key per row |
| Container.PutAllOrdered | casperdatasets/src/main/java/net/casper/data/model/CDataCacheContainer.java:619-622 | the puts of a batch keep the map well formed, keep old keys in place and add at most one key per put |
| Container.PutAllKeys | casperdatasets/src/main/java/net/casper/data/model/CDataCacheContainer.java:619-622 | after the puts a key is stored exactly when it was before or the batch has it |
| Container.PutAllKeeps | casperdatasets/src/main/java/net/casper/data/model/CDataCacheContainer.java:619-622 | a key the batch does not mention keeps its row |
| Container.PutAllLastWins | casperdatasets/src/main/java/net/casper/data/model/CDataCacheContainer.java:619-622 | a key put twice holds the row of its last put: a non-unique primary key overwrites earlier rows |
| Container.BumpedWraps | casperdatasets/src/main/java/net/casper/data/model/CDataCacheContainer.java:611-613 | n increments of the int identity counter give the Java int wrap of the counter plus n |
| Container.IdentityKeysDistinct | casperdatasets/src/main/java/net/casper/data/model/CDataCacheContainer.java:611-613 | without a primary key, the keys of a batch of at most 2^32 rows are pairwise different |
| Container.IdentityKeyAt | casperdatasets/src/main/java/net/casper/data/model/CDataCacheContainer.java:611-613 | without a primary key, the j-th row is keyed by the counter advanced j + 1 times, wrapped to a Java int |
| Container.OrderedSize | casperdatasets/src/main/java/net/casper/data/model/CDataCacheContainer.java:269-275 | a well-formed map has one entry per listed key, so size() counts the keys |
| Container.RemoveAllKeysSpec | casperdatasets/src/main/java/net/casper/data/model/CDataCacheContainer.java:693-696 | removing keys one by one keeps the map well formed; a key stays iff it was stored and not removed, and what stays keeps its row |
| Container.Found | casperdatasets/src/main/java/net/casper/data/model/CDataCacheContainer.java:409-433 | the rows match selects are rows of the container or of its index buckets |
| Container.FoundSettled | casperdatasets/src/main/java/net/casper/data/model/CDataCacheContainer.java:427-433 | once match has run, the filters' own fields select the same rows as their values at its start |
| Container.QueryPasses | casperdatasets/src/main/java/net/casper/data/model/CDataCacheContainer.java:405-450 | every row get returns passes every remaining filter and is a row of the container |
| Container.QueryScans | casperdatasets/src/main/java/net/casper/data/model/CDataCacheContainer.java:405-450 | with no promoted filter and no recorded index, get returns a row iff it is stored and passes every filter |
| Container.QueryByKey | casperdatasets/src/main/java/net/casper/data/model/CDataCacheContainer.java:405-450 | with a promoted primary-key filter, get returns only stored rows, and every row stored under one of its non-null values that passes the remaining filters |
| Container.RemovedEverything | casperdatasets/src/main/java/net/casper/data/model/CDataCacheContainer.java:727-733 | removing every key of a copy of the key set leaves the map empty |
| Container.RowKeys | casperdatasets/src/main/java/net/casper/data/model/CDataCacheContainer.java:693-696 | keying the selected rows again yields one key per row up to the first failing row, and all of them when none fails |
| Container.RowKeysSpec | casperdatasets/src/main/java/net/casper/data/model/CDataCacheContainer.java:693-696 | each key is its row's createPrimaryKey, and a failure is the next row's createPrimaryKey failure |
| Container.RowKeysStops | casperdatasets/src/main/java/net/casper/data/model/CDataCacheContainer.java:693-696 | once a row fails to key, the rows after it change nothing |
| Container.RowKeysComplete | casperdatasets/src/main/java/net/casper/data/model/CDataCacheContainer.java:693-696 | with a primary key whose columns exist, rows of the schema's width all get a key |
| Container.RowKeysWithoutKey | casperdatasets/src/main/java/net/casper/data/model/CDataCacheContainer.java:693-696 | without a primary key the first row fails to key and nothing is removed |
| Container.RemovedSpec | casperdatasets/src/main/java/net/casper/data/model/CDataCacheContainer.java:686-706 | removal keeps the map well formed; a key stays iff it was stored and no selected row is keyed by it; a successful removal returns the number of rows selected, all of them keyed |
| Container.FiledOne | casperdatasets/src/main/java/net/casper/data/model/CDataCacheContainer.java:571-576 | a single added row is stored under its key |
| Container.OneFilterPlan | casperdatasets/src/main/java/net/casper/data/model/CDataCacheContainer.java:365-375 | the plan of one equality filter: a missing key array fails, as does an empty one; a filter on the single key column is promoted; any other stays listed and is recorded when its column is indexed |
| Container.OneFilterList | casperdatasets/src/main/java/net/casper/data/model/CDataCacheContainer.java:365-375 | the one filter is either listed or promoted |
| Container.PkMatchesMembers | casperdatasets/src/main/java/net/casper/data/model/CDataCacheContainer.java:973-991 | a row is among the primary-key matches iff it is stored under one of the non-null values |
| Container.EqualsProbe | casperdatasets/src/main/java/net/casper/data/model/CDataCacheContainer.java:365-375 | an equality filter on an unresolved column matches a row iff the column exists, the row reaches it and its cell is one of the values |
| Container.ColumnScan | casperdatasets/src/main/java/net/casper/data/model/CDataCacheContainer.java:365-375 | get(columnName, values) on a column neither promoted nor indexed returns a row iff it is stored, the column exists, the row reaches it and the cell is one of the values |
| Container.KeyColumnLookup | casperdatasets/src/main/java/net/casper/data/model/CDataCacheContainer.java:365-375 | get(columnName, values) on the single key column returns a row iff it is stored under one of the non-null values |
| Container.KeysNeverWritten | casperdatasets/src/main/java/net/casper/data/model/CDataCacheContainer.java:803-805 | merge never writes a destination key column or a join column |
| Container.WrittenColumnsMatch | casperdatasets/src/main/java/net/casper/data/model/CDataCacheContainer.java:837-858 | a column merge writes is one the source has, with the destination's type, and that is neither a key column nor a join column |
| Container.CacheContainer.Init | casperdatasets/src/main/java/net/casper/data/model/CDataCacheContainer.java:219-237 | a fresh container holds the name and schema, an empty map, no index and a zero counter |
| Container.CacheContainer.Create | casperdatasets/src/main/java/net/casper/data/model/CDataCacheContainer.java:219-237 | init fails with an argument error exactly when the meta data or the map is null; otherwise the container is empty and has no index |
| Container.CacheContainer.FromBuilder | casperdatasets/src/main/java/net/casper/data/model/CDataCacheContainer.java:103-138 | an open failure closes the builder and fails; a rejected schema or a missing map fails with the builder open; a read failure closes it and fails; a row of the wrong width fails with it open; otherwise it is closed and the container holds exactly the rows read, filed in order |
| Container.CacheContainer.Load | casperdatasets/src/main/java/net/casper/data/model/CDataCacheContainer.java:113-131 | a read failure leaves the map and closes the builder; a corrupt row leaves the map and the builder open; otherwise every row read is filed and the count is their number |
| Container.CacheContainer.AddRead | casperdatasets/src/main/java/net/casper/data/model/CDataCacheContainer.java:125-129 | addData of the rows read: a corrupt row fails and changes nothing, otherwise every row is filed and the count is their number |
| Container.CacheContainer.ReadRows | casperdatasets/src/main/java/net/casper/data/model/CDataCacheContainer.java:117-122 | one new row per array readRow returns, holding that array's cells, unless a call throws |
| Container.CacheContainer.NewInsertionOrdered | casperdatasets/src/main/java/net/casper/data/model/CDataCacheContainer.java:244-256 | a null name text throws; otherwise the names are the text split at commas as String.split does (trailing empty names dropped), the schema's checks on them decide failure, and success gives an empty container with no index and no primary key |
| Container.CacheContainer.Size | casperdatasets/src/main/java/net/casper/data/model/CDataCacheContainer.java:269-275 | the number of stored rows, which is the number of listed keys |
| Container.CacheContainer.AllRows | casperdatasets/src/main/java/net/casper/data/model/CDataCacheContainer.java:497-504 | the stored rows in map order, and exactly the map's values |
| Container.CacheContainer.UpdateIndices | casperdatasets/src/main/java/net/casper/data/model/CDataCacheContainer.java:1026-1039 | succeeds exactly when no index is registered; otherwise the cast of a key-set entry fails |
| Container.CacheContainer.AddRows | casperdatasets/src/main/java/net/casper/data/model/CDataCacheContainer.java:586-633 | a null or empty batch gives 0; a null or corrupt row fails before any put; otherwise every row is filed (last write wins), the count is the batch length, and an index update fails when an index is registered |
| Container.CacheContainer.CheckBatch | casperdatasets/src/main/java/net/casper/data/model/CDataCacheContainer.java:598-601 | the cardinality check passes exactly when no row is null and every row has the schema's width |
| Container.CacheContainer.FileRows | casperdatasets/src/main/java/net/casper/data/model/CDataCacheContainer.java:608-624 | the put loop files every row of a sound batch and counts the batch length |
| Container.CacheContainer.KeysOf | casperdatasets/src/main/java/net/casper/data/model/CDataCacheContainer.java:608-617 | the keys the loop computes are BatchKeys, and the counter ends advanced once per row when there is no primary key |
| Container.CacheContainer.PutRows | casperdatasets/src/main/java/net/casper/data/model/CDataCacheContainer.java:619-622 | the puts of the loop are PutAll of the keys and rows |
| Container.CacheContainer.RemoveKeys | casperdatasets/src/main/java/net/casper/data/model/CDataCacheContainer.java:693-696 | the remove calls of the loop are RemoveAllKeys of the keys |
| Container.CacheContainer.Snapshot | casperdatasets/src/main/java/net/casper/data/model/CDataCacheContainer.java:973-1003 | what the clause may call back: the container's map and the buckets of exactly its registered indexes |
| Container.CacheContainer.GetAll | casperdatasets/src/main/java/net/casper/data/model/CDataCacheContainer.java:474-490 | every stored row in a fresh row set, in map order or sorted as asked; a sort failure fails; the row set has one row per stored key |
| Container.CacheContainer.GetAllDefault | casperdatasets/src/main/java/net/casper/data/model/CDataCacheContainer.java:457-462 | getAll sorted ascending by the primary-key columns |
| Container.CacheContainer.Get | casperdatasets/src/main/java/net/casper/data/model/CDataCacheContainer.java:405-450 | a null clause fails; a clause without filters is getAll; otherwise the clause gets the schema and container and is planned, and the answer is the query of the planned clause over every row, listed and sorted |
| Container.CacheContainer.GetFiltered | casperdatasets/src/main/java/net/casper/data/model/CDataCacheContainer.java:409-450 | a clause with filters is planned over the container and answered with the rows the query selects |
| Container.CacheContainer.Answer | casperdatasets/src/main/java/net/casper/data/model/CDataCacheContainer.java:433-450 | a planned clause's matches, listed and sorted, are the query's result |
| Container.CacheContainer.ListFound | casperdatasets/src/main/java/net/casper/data/model/CDataCacheContainer.java:438-450 | the found rows in a fresh row set, sorted as asked |
| Container.CacheContainer.Plan | casperdatasets/src/main/java/net/casper/data/model/CDataCacheContainer.java:417-427 | the clause gets the schema and this container, and its list, promoted filter, record and outcome are PlanOf's |
| Container.CacheContainer.Select | casperdatasets/src/main/java/net/casper/data/model/CDataCacheContainer.java:433 | match over every row returns the rows Found selects |
| Container.CacheContainer.GetByColumn | casperdatasets/src/main/java/net/casper/data/model/CDataCacheContainer.java:365-375 | a null column, null values or no value fail before any query; otherwise the answer is the query of a fresh one-filter clause |
| Container.CacheContainer.AskFilter | casperdatasets/src/main/java/net/casper/data/model/CDataCacheContainer.java:365-375 | get on a fresh clause holding the new filter is the query of that filter's plan |
| Container.CacheContainer.OneFilterClause | casperdatasets/src/main/java/net/casper/data/model/CDataCacheContainer.java:369-371 | a fresh clause holding the one filter and nothing else |
| Container.CacheContainer.Ask | casperdatasets/src/main/java/net/casper/data/model/CDataCacheContainer.java:375 | get on a fresh clause whose plan is known is that plan's query |
| Container.CacheContainer.GetByColumnDefault | casperdatasets/src/main/java/net/casper/data/model/CDataCacheContainer.java:345-349 | get(columnName, values, null, true): the same rows, unsorted |
| Container.CacheContainer.GetDefault | casperdatasets/src/main/java/net/casper/data/model/CDataCacheContainer.java:385-390 | get(clause, null, true): a null clause fails, an empty clause lists every row unsorted, otherwise the query of the planned clause |
| Container.CacheContainer.GetPrimaryKeyMatches | casperdatasets/src/main/java/net/casper/data/model/CDataCacheContainer.java:973-991 | a null array fails; otherwise the rows stored under the non-null values, in their order, misses dropped |
| Container.CacheContainer.AddUniqueIndex | casperdatasets/src/main/java/net/casper/data/model/CDataCacheContainer.java:922-935 | fails exactly for a column neither registered nor in the schema; nothing else changes |
| Container.CacheContainer.AddNonUniqueIndex | casperdatasets/src/main/java/net/casper/data/model/CDataCacheContainer.java:945-962 | a registered column is left alone; an unknown column fails; otherwise a fresh index over every stored row in map order is registered under the column, unless a row is too short for it, and the map is unchanged |
| Container.CacheContainer.BuildIndex | casperdatasets/src/main/java/net/casper/data/model/CDataCacheContainer.java:955-957 | a fresh index over the column filled with the rows in order, failing exactly when a row is too short |
| Container.CacheContainer.RemoveAll | casperdatasets/src/main/java/net/casper/data/model/CDataCacheContainer.java:718-741 | an empty map gives 0 and no change; otherwise the map ends empty and the count is the former size, or the index update fails when an index is registered |
| Container.CacheContainer.SetColumnValue | casperdatasets/src/main/java/net/casper/data/model/CDataCacheContainer.java:891-912 | a null or blank name and then an unknown name fail with nothing written; otherwise the column is set in every stored row, failing exactly when a row is too short for it, and no other cell changes |
| Container.CacheContainer.WriteColumn | casperdatasets/src/main/java/net/casper/data/model/CDataCacheContainer.java:905-910 | the write loop sets the column in every row, failing exactly when some row is too short, and touches no other cell |
| Container.CacheContainer.ClearColumn | casperdatasets/src/main/java/net/casper/data/model/CDataCacheContainer.java:878-882 | setColumnValue with null: a null, blank or unknown name fails with nothing written; otherwise on success every stored row's cell in the column is null, and every other cell is untouched |
| Container.CacheContainer.AddSingleRow | casperdatasets/src/main/java/net/casper/data/model/CDataCacheContainer.java:571-576 | a null array fails; a new row adopting the array is added with the index update: a wrong width fails unchanged, otherwise the row is filed under its key |
| Container.CacheContainer.AddOne | casperdatasets/src/main/java/net/casper/data/model/CDataCacheContainer.java:575 | addData of a batch of the one row: a wrong width fails unchanged, otherwise it is stored under its key and the count is 1 unless an index is registered |
| Container.CacheContainer.AddOneShape | casperdatasets/src/main/java/net/casper/data/model/CDataCacheContainer.java:586-633 | what addData does with a one-row batch, its result included |
| Container.CacheContainer.AddContainer | casperdatasets/src/main/java/net/casper/data/model/CDataCacheContainer.java:532-545 | a null container fails; unequal schemas fail unchanged; otherwise the other container's rows in its map order are added as one batch |
| Container.CacheContainer.RemoveData | casperdatasets/src/main/java/net/casper/data/model/CDataCacheContainer.java:672-707 | a null clause or one without filters removes nothing and gives 0; a failing plan or query changes nothing; otherwise the selected rows are keyed again and removed, as Removed states |
| Container.CacheContainer.RemoveByColumn | casperdatasets/src/main/java/net/casper/data/model/CDataCacheContainer.java:648-660 | null or no values remove nothing; a null column fails; otherwise removeData of a fresh one-filter clause |
| Container.CacheContainer.RemoveFilter | casperdatasets/src/main/java/net/casper/data/model/CDataCacheContainer.java:655-659 | removeData of a fresh clause holding the new filter |
| Container.CacheContainer.RemoveAsked | casperdatasets/src/main/java/net/casper/data/model/CDataCacheContainer.java:676-706 | removeData of a clause whose plan is known |
| Container.CacheContainer.Merge | casperdatasets/src/main/java/net/casper/data/model/CDataCacheContainer.java:776-869 | a null row set or a null or empty join list fails; an empty row set gives 0; a missing key array fails; the count is never negative; and a destination cell can change only in a column both sides have with the same type that is neither a key nor a join column |
| Container.CacheContainer.MergeJoined | casperdatasets/src/main/java/net/casper/data/model/CDataCacheContainer.java:812-866 | merge's loop from a reset cursor changes only the columns merge may write and leaves the source rows as they were |
| Container.CacheContainer.MergeContainer | casperdatasets/src/main/java/net/casper/data/model/CDataCacheContainer.java:757-765 | a null container fails; otherwise its getAll row set is merged, with merge's failures and the same bound on the cells that can change |
| Container.CacheContainer.MergeListed | casperdatasets/src/main/java/net/casper/data/model/CDataCacheContainer.java:763-764 | merging the other container's listed rows: merge's failures and the same bound on what changes |
| Container.CacheContainer.MergeRows | casperdatasets/src/main/java/net/casper/data/model/CDataCacheContainer.java:813-865 | the loop over the source rows keeps every cell outside the writable columns |
| Container.CacheContainer.MergeStep | casperdatasets/src/main/java/net/casper/data/model/CDataCacheContainer.java:813-865 | one turn advances the source cursor when it lands on a row and writes only the writable columns |
| Container.CacheContainer.MergeRow | casperdatasets/src/main/java/net/casper/data/model/CDataCacheContainer.java:818-864 | one source row: a clause per join column, a get, then copies into the matched rows; only writable columns change |
| JoinClause.OneClausePerJoin | casperdatasets/src/main/java/net/casper/data/model/CDataCacheContainer.java:818-824 | succeeds exactly when the current source row reaches every join column; then a fresh clause with nothing promoted and one filter per join column, the k-th a fresh, non-negated equality filter on join column k holding the source row's value there |
| JoinClause.AddJoinFilter | casperdatasets/src/main/java/net/casper/data/model/CDataCacheContainer.java:820-822 | one turn of the loop: fails exactly when the row does not reach the next join column, and otherwise appends that column's fresh equality filter and keeps the earlier filters |
| JoinClause.JoinFilter | casperdatasets/src/main/java/net/casper/data/model/CDataCacheContainer.java:820-822 | one join column: getObject succeeds exactly when the current row reaches the column, and the new EqualsFilter is unresolved, not negated, and holds that one value |
| Container.CacheContainer.MatchAndCopy | casperdatasets/src/main/java/net/casper/data/model/CDataCacheContainer.java:827-864 | get, then the copy into every matched row, changing only writable columns |
| Container.CacheContainer.Matched | casperdatasets/src/main/java/net/casper/data/model/CDataCacheContainer.java:827 | get(clause, null, false): succeeds exactly when planning and the query succeed, and returns the query's rows, which are rows of the container |
| Container.CacheContainer.CopyInto | casperdatasets/src/main/java/net/casper/data/model/CDataCacheContainer.java:831-864 | the copy loop over the matched rows returns their number and changes only writable columns |
| Container.CacheContainer.CopyNext | casperdatasets/src/main/java/net/casper/data/model/CDataCacheContainer.java:835-860 | one next() on the matched rows and the copy into the row reached |
| Container.CacheContainer.CopyRow | casperdatasets/src/main/java/net/casper/data/model/CDataCacheContainer.java:837-859 | the columns loop for one matched row changes only writable columns |
| Container.CacheContainer.CopyColumn | casperdatasets/src/main/java/net/casper/data/model/CDataCacheContainer.java:845-858 | only writable cells change; when the column is not protected and the destination has it with the same type, success leaves the matched row's cell equal to the source row's cell as it was |
| Container.CacheContainer.WriteCell | casperdatasets/src/main/java/net/casper/data/model/CDataCacheContainer.java:857 | setValue on the current matched row succeeds exactly when the row reaches the column, then holds the value there, and changes no other cell |
| Container.CacheContainer.RemoveSelected | casperdatasets/src/main/java/net/casper/data/model/CDataCacheContainer.java:683-706 | removeData on a clause holding filters: the selected rows removed as Removed states, or no change on a failing query |
| Container.CacheContainer.RemoveFound | casperdatasets/src/main/java/net/casper/data/model/CDataCacheContainer.java:684-706 | the removing half of removeData on the rows the query selected |
| Container.CacheContainer.Selection | casperdatasets/src/main/java/net/casper/data/model/CDataCacheContainer.java:683-684 | get(clause, null, true) as the rows it selects |
| Container.CacheContainer.Drop | casperdatasets/src/main/java/net/casper/data/model/CDataCacheContainer.java:686-703 | the selected rows' cells keyed again, removed, and counted as Removed states |
| Container.CacheContainer.Counted | casperdatasets/src/main/java/net/casper/data/model/CDataCacheContainer.java:699-701 | the key failure, else the index update's failure, else the count |
| Container.CacheContainer.RemoveRows | casperdatasets/src/main/java/net/casper/data/model/CDataCacheContainer.java:693-696 | the removal loop removes the keys of the rows up to the first key failure and reports that failure |

## Left out

- Container.CacheContainer.Merge: the count returned and the values written are not fully stated. The contract states only the failures, the empty case, that the count is non-negative and which cells may change (the destination's columns that the source has with an equal type, other than key and join columns).
- Container.CacheContainer.MergeContainer: states the same bound as `Merge` on the cells that may change, plus the failures of listing the other container; it does not state the count or the values written.
- Container.CacheContainer.MergeJoined: states only which cells may change (the writable columns), not the values written; see the note below.
- Container.CacheContainer.MergeListed: states only which cells may change (the writable columns), not the values written; see the note below.
- Container.CacheContainer.MergeRows: states only which cells may change (the writable columns), not the values written; see the note below.
- Container.CacheContainer.MergeStep: states only which cells may change (the writable columns), not the values written; see the note below.
- Container.CacheContainer.MergeRow: states only which cells may change (the writable columns), not the values written; see the note below.
- Container.CacheContainer.MatchAndCopy: states only which cells may change (the writable columns), not the values written; see the note below.
- Container.CacheContainer.CopyInto: states only which cells may change (the writable columns), not the values written; see the note below.
- Container.CacheContainer.CopyNext: states only which cells may change (the writable columns), not the values written; see the note below.
- Container.CacheContainer.CopyRow: states only which cells may change (the writable columns), not the values written; see the note below.
- The merge loops do not carry the value written up from `WriteCell` and `CopyColumn`, which state it per cell. A source row can be one of the destination's own rows, so an earlier copy can change a value that a later one reads.
- RowSets.RowSet.SortByColumn: a failed sort leaves the list as it was, as when `Collections.sort` sorts a copy and writes it back only on success. A sort in place, as `ArrayList.sort` does, can leave the list partly reordered when the comparator throws part way; the model does not capture that.
- Java `equals` and `hashCode` are datatype equality on `Value`. Cross-class date equality is not modelled: `java.util.Date.equals` compares milliseconds, so in Java a `java.util.Date` and a `java.sql.Date` with the same time are equal. They would match in `EqualsFilter` and share a map key or index bucket. In the model they are different values everywhere: filters, the container's key map (`QueryByKey`, `PkMatches`, `GetPrimaryKeyMatches`) and the index buckets.
- Locking: `synchronized`, the container's read/write lock and `checkLock` are left out because the model is sequential.
- JDBC: `CDataResultSet`, `CDataCacheDBAdapter`, the `ResultSetMetaData` methods of `CRowMetaData` and the `ResultSet` readers of `CDataConverter` (lines 263-504) are not part of this model, because they need a database driver.
- File, CSV, Excel, JSON and reflection input, and the readers behind the container builders, are left out because they do I/O. The builders are modelled as the rows and schema they deliver. `CBuildFromFile` is modelled only as far as its choice of a reader.
- `CBuildNarrowed`, `CasperUtil` and `CasperClone` are not part of this model.
- The SWT user-interface classes are not part of this model.
- `CDataRowSetAggregator` is left out because its results are floating-point sums and averages.
- `Double` and `Float` values are real numbers without rounding. Conversions and comparisons that involve them are exact, not IEEE 754.
- `RegexFilter` is left out because `java.util.regex` is not part of this model.
- Java's `toString` and the `parse*` methods of the wrapper classes are parameters (`JavaText`) and are not interpreted.
- The join classes are not part of this model.
- `CMarkedUpRow` and the typed getters of the row set (`getInt`, `getString`, …) are left out because each one is a cast plus `CDataConverter`, which is modelled.
- `CDataRowSet.toMapArray` is left out. It reads element i of a list it never fills, so it fails on any non-empty row set.
- `toString` methods, serialization, and the exception and constant classes are left out.
- The builder and exporter interfaces are modelled as the sequences of rows and strings that pass through them.
- `toUpperCase` and `equalsIgnoreCase` act on ASCII letters only.
- The CSV exporter's line separator is a parameter, not read from the system properties.
- Iteration over the container's `HashMap` follows insertion order, the order of a `LinkedHashMap`. The source leaves `HashMap` order unspecified.
- When several indexed columns carry equality filters, the clause uses the first column recorded. The source picks whichever one its `HashMap` yields first.
- `Collections.sort` is modelled as a stable insertion sort. Its "comparison method violates its general contract" failure is left out. The comparator is proved to satisfy the laws the sort relies on.
- Trivial getters are left out: `getIndexColumnNames`, `getNumberRows`, `getCacheName` and `getMetaDefinition`. So is the container constructor from a CSV string (`CDataCacheContainer.java` lines 194-214), which only parses text.
- `export` (`CDataCacheContainer.java` lines 308-333) is left out. It drives an exporter over `getAll()`: it sets the exporter's name, column names, types and primary key, opens it, writes every row and closes it on an I/O error. `getAll` and the CSV string exporter's operations are modelled separately.
- Comparator.StringCompareTo: compares strings by Unicode code point, not by UTF-16 code unit as Java's `String.compareTo` is, and a length difference counts characters, not code units. The sign differs when a character above U+FFFF meets one in U+E000..U+FFFF: Java sees the high surrogate (0xD800..0xDBFF) and orders it first. String columns can therefore sort differently in the model for such text.
