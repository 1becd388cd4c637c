/**
 * CExportCSVString: an exporter that renders a container as CSV text in a
 * string buffer. Cells reach it already converted to text (Some(toString()))
 * or as Java null (None). Items are joined by ", " without quoting or
 * escaping, and each line ends with the platform line separator.
 */
module CsvExport {
  import opened Base

  // ---------------------------------------------------------------------
  // One line of output.

  /** How the buffer renders an item: its text, or "null" for a null item. */
  function Text(item: Option<string>): string {
    if item.None? then "null" else item.value
  }

  /** The items, each followed by ", " (the loop of `write`). */
  function Lead(items: seq<Option<string>>): string
    requires forall i :: 0 <= i < |items| ==> items[i].Some?
  {
    if |items| == 0 then ""
    else Lead(items[..|items| - 1]) + items[|items| - 1].value + ", "
  }

  /** The position of the first null among the first n items, or n. */
  function FirstNull(items: seq<Option<string>>, n: nat): (k: nat)
    requires n <= |items|
    ensures k <= n
    ensures forall i :: 0 <= i < k ==> items[i].Some?
    ensures k < n ==> items[k].None?
  {
    if n == 0 then 0
    else
      var k := FirstNull(items, n - 1);
      if k < n - 1 then k
      else if items[n - 1].None? then n - 1
      else n
  }

  /** What one call of `write` appends to the buffer, and whether it throws. */
  datatype Emission = Emission(text: string, result: Result<()>)

  /**
   * `write(content)`: every item but the last is printed with toString() and
   * followed by ", " (a null there throws NullPointerException after the
   * earlier items were appended); the last item is appended as an object
   * (a null prints as "null"), then the line separator. An empty array
   * throws ArrayIndexOutOfBoundsException for index -1 before appending.
   */
  function Emit(content: seq<Option<string>>, newline: string): (e: Emission)
    ensures e.result.Ok? <==> |content| > 0 && forall i :: 0 <= i < |content| - 1 ==> content[i].Some?
    ensures |content| == 0 ==> e == Emission("", Err(IndexOutOfBounds(0, -1)))
    ensures e.result.Err? && |content| > 0 ==> e.result.error == NullPointer
  {
    if |content| == 0 then Emission("", Err(IndexOutOfBounds(0, -1)))
    else
      var last := |content| - 1;
      var k := FirstNull(content, last);
      if k < last then Emission(Lead(content[..k]), Err(NullPointer))
      else Emission(Lead(content[..last]) + Text(content[last]) + newline, Ok(()))
  }

  /** The text of each item with the separating space restored: [y0, " " + y1, ...]. */
  function Spaced(ys: seq<string>): (r: seq<string>)
    requires |ys| > 0
    ensures |r| == |ys| && r[0] == ys[0]
    ensures forall i :: 1 <= i < |ys| ==> r[i] == " " + ys[i]
  {
    [ys[0]] + seq(|ys| - 1, i requires 0 <= i < |ys| - 1 => " " + ys[i + 1])
  }

  /** Reading a line back: drop the line separator, split at ',' and drop the space after each comma. */
  function Fields(line: string, newline: string): (r: seq<string>)
    requires |line| >= |newline|
  {
    var pieces := Pieces(line[..|line| - |newline|], ',');
    [pieces[0]] + seq(|pieces| - 1, i requires 0 <= i < |pieces| - 1 =>
                        if |pieces[i + 1]| > 0 then pieces[i + 1][1..] else "")
  }

  /** The loop of `write` one item further. */
  lemma LeadSnoc(items: seq<Option<string>>, i: nat)
    requires i < |items| && forall j :: 0 <= j <= i ==> items[j].Some?
    ensures Lead(items[..i + 1]) == Lead(items[..i]) + items[i].value + ", "
  {
    assert items[..i + 1][..i] == items[..i];
  }

  /** The texts of items that are all present. */
  function Values(items: seq<Option<string>>): (r: seq<string>)
    requires forall i :: 0 <= i < |items| ==> items[i].Some?
    ensures |r| == |items| && forall i :: 0 <= i < |items| ==> r[i] == items[i].value
  {
    seq(|items|, i requires 0 <= i < |items| => items[i].value)
  }

  /** Spacing one more text appends it with its space. */
  lemma SpacedSnoc(ys: seq<string>, t: string)
    requires |ys| > 0
    ensures Spaced(ys + [t]) == Spaced(ys) + [" " + t]
  {
  }

  /** The split of items printed by the loop and a last item. */
  lemma {:induction false} LeadPieces(items: seq<Option<string>>, t: string)
    requires forall i :: 0 <= i < |items| ==> items[i].Some? && ',' !in items[i].value
    requires ',' !in t
    ensures Pieces(Lead(items) + t, ',') == Spaced(Values(items) + [t])
  {
    if |items| == 0 {
      PiecesOfPlain(t, ',');
      assert Lead(items) + t == t;
      assert Values(items) + [t] == [t];
    } else {
      var n := |items| - 1;
      LeadPieces(items[..n], items[n].value);
      LeadSplit(items, t);
      SpacedSplit(items, t);
    }
  }

  /** The split of the loop's text and a last item: the split without the last item, then the item with its space. */
  lemma LeadSplit(items: seq<Option<string>>, t: string)
    requires |items| > 0 && forall i :: 0 <= i < |items| ==> items[i].Some?
    requires ',' !in t
    ensures Pieces(Lead(items) + t, ',') ==
            Pieces(Lead(items[..|items| - 1]) + items[|items| - 1].value, ',') + [" " + t]
  {
    var head := Lead(items[..|items| - 1]) + items[|items| - 1].value;
    assert Lead(items) == head + ", ";
    CommaSpace(head, t);
    PiecesConcat(head, " " + t, ',');
    PiecesOfPlain(" " + t, ',');
  }

  lemma CommaSpace(head: string, t: string)
    ensures head + ", " + t == head + [','] + (" " + t)
  {
  }

  /** Spacing the texts of items and a last text, split the same way as LeadSplit. */
  lemma SpacedSplit(items: seq<Option<string>>, t: string)
    requires |items| > 0 && forall i :: 0 <= i < |items| ==> items[i].Some?
    ensures Spaced(Values(items) + [t]) ==
            Spaced(Values(items[..|items| - 1]) + [items[|items| - 1].value]) + [" " + t]
  {
    var front := items[..|items| - 1];
    assert Values(items) == Values(front) + [items[|items| - 1].value];
    SpacedSnoc(Values(items), t);
  }

  /**
   * Partner of `write`: when no item contains a comma, a written line reads
   * back as the text of its items.
   */
  lemma EmitRoundTrip(content: seq<Option<string>>, newline: string)
    requires Emit(content, newline).result.Ok?
    requires forall i :: 0 <= i < |content| ==> ',' !in Text(content[i])
    ensures |Emit(content, newline).text| >= |newline|
    ensures Fields(Emit(content, newline).text, newline) ==
            seq(|content|, i requires 0 <= i < |content| => Text(content[i]))
  {
    var last := |content| - 1;
    var front := content[..last];
    var line := Emit(content, newline).text;
    EmitLine(content, newline);
    LeadPieces(front, Text(content[last]));
    TextsOf(content);
    FieldsOfSpaced(line, newline, Values(front) + [Text(content[last])]);
  }

  /** A line written in full: the items before the last, each with ", ", the last one's text, the separator. */
  lemma EmitLine(content: seq<Option<string>>, newline: string)
    requires Emit(content, newline).result.Ok?
    ensures var line := Emit(content, newline).text; var last := |content| - 1;
      |content| > 0 && (forall i :: 0 <= i < last ==> content[..last][i].Some?) &&
      |line| >= |newline| && line[..|line| - |newline|] == Lead(content[..last]) + Text(content[last])
  {
    var last := |content| - 1;
    var line := Emit(content, newline).text;
    assert line == Lead(content[..last]) + Text(content[last]) + newline;
  }

  /** The texts of all but the last item, then the last one's text, are the texts of the items. */
  lemma TextsOf(content: seq<Option<string>>)
    requires |content| > 0 && forall i :: 0 <= i < |content| - 1 ==> content[i].Some?
    ensures Values(content[..|content| - 1]) + [Text(content[|content| - 1])] ==
            seq(|content|, i requires 0 <= i < |content| => Text(content[i]))
  {
  }

  /** A line whose body splits into spaced texts reads back as those texts. */
  lemma FieldsOfSpaced(line: string, newline: string, ys: seq<string>)
    requires |line| >= |newline| && |ys| > 0
    requires Pieces(line[..|line| - |newline|], ',') == Spaced(ys)
    ensures Fields(line, newline) == ys
  {
    var pieces := Spaced(ys);
    forall i | 1 <= i < |pieces|
      ensures pieces[i][1..] == ys[i]
    {
    }
  }

  /** There is no escaping: an item holding ", " prints like two items. */
  lemma NoEscaping(newline: string)
    ensures Emit([Some("a, b")], newline).text == Emit([Some("a"), Some("b")], newline).text
  {
    var two := [Some("a"), Some("b")];
    assert two[..1] == [Some("a")];
    assert [Some("a")][..0] == [];
    assert Lead([Some("a")]) == "a, ";
  }

  // ---------------------------------------------------------------------
  // Column selection.

  /** The first column whose name equals `name` ignoring case. */
  function FirstMatch(name: string, columnNames: seq<string>): (r: Option<nat>)
    ensures r.Some? ==> r.value < |columnNames| && EqualsIgnoreCase(name, columnNames[r.value])
    ensures r.Some? ==> forall i :: 0 <= i < r.value ==> !EqualsIgnoreCase(name, columnNames[i])
    ensures r.None? ==> forall i :: 0 <= i < |columnNames| ==> !EqualsIgnoreCase(name, columnNames[i])
  {
    if |columnNames| == 0 then None
    else
      match FirstMatch(name, columnNames[..|columnNames| - 1])
      case Some(i) => Some(i)
      case None =>
        if EqualsIgnoreCase(name, columnNames[|columnNames| - 1]) then Some(|columnNames| - 1) else None
  }

  /** Every selected name resolves to a column. */
  predicate AllResolve(selected: seq<string>, columnNames: seq<string>) {
    forall j :: 0 <= j < |selected| ==> FirstMatch(selected[j], columnNames).Some?
  }

  /**
   * The positions `setColumnNames` records: one per selected name, in
   * selection order, up to (not including) the first name that does not
   * resolve.
   */
  function Resolution(selected: seq<string>, columnNames: seq<string>): (r: seq<nat>)
    ensures |r| <= |selected|
    ensures forall j :: 0 <= j < |r| ==> FirstMatch(selected[j], columnNames) == Some(r[j])
    ensures |r| < |selected| ==> FirstMatch(selected[|r|], columnNames).None?
    ensures AllResolve(selected, columnNames) <==> |r| == |selected|
  {
    if |selected| == 0 then []
    else
      var r := Resolution(selected[..|selected| - 1], columnNames);
      if |r| < |selected| - 1 then r
      else
        match FirstMatch(selected[|selected| - 1], columnNames)
        case Some(i) => r + [i]
        case None => r
  }

  /** The cells `writeRow` picks out of a row: the ones at the recorded positions, in order. */
  function Project(row: seq<Option<string>>, positions: seq<nat>): (r: seq<Option<string>>)
    requires forall k :: 0 <= k < |positions| ==> positions[k] < |row|
    ensures |r| == |positions|
    ensures forall k :: 0 <= k < |r| ==> r[k] == row[positions[k]]
  {
    seq(|positions|, k requires 0 <= k < |positions| => row[positions[k]])
  }

  /** The k-th selected cell is the row's cell under the first column named like the k-th selection. */
  lemma ProjectSelected(row: seq<Option<string>>, selected: seq<string>, columnNames: seq<string>, k: nat)
    requires AllResolve(selected, columnNames) && |row| == |columnNames|
    requires k < |selected|
    ensures forall j :: 0 <= j < |Resolution(selected, columnNames)| ==> Resolution(selected, columnNames)[j] < |row|
    ensures var p := Project(row, Resolution(selected, columnNames));
            p[k] == row[FirstMatch(selected[k], columnNames).value]
  {
  }

  // ---------------------------------------------------------------------
  // The exporter.

  class CsvStringExporter {
    /** System.getProperty("line.separator"), read once. */
    const newline: string
    /** The selection given to the constructor, split at commas; None to write every column. */
    const selectedColumnNames: Option<seq<string>>
    const includeHeader: bool
    var selectedColumnIndices: seq<nat>
    var output: string

    constructor (includeHeader: bool, selectedColumnNames: Option<string>, newline: string)
      ensures this.includeHeader == includeHeader && this.newline == newline
      ensures this.selectedColumnNames ==
                (if selectedColumnNames.None? then None else Some(JavaSplit(selectedColumnNames.value, ',')))
      ensures selectedColumnIndices == [] && output == ""
    {
      this.includeHeader := includeHeader;
      this.newline := newline;
      this.selectedColumnNames :=
        if selectedColumnNames.None? then None else Some(JavaSplit(selectedColumnNames.value, ','));
      selectedColumnIndices := [];
      output := "";
    }

    /** getCSVString(): the text written so far. */
    function CsvString(): string
      reads this
    {
      output
    }

    /** close() hands back the same text as getCSVString(). */
    method Close() returns (text: string)
      ensures text == CsvString()
    {
      text := output;
    }

    /** setName, setColumnTypes, setPrimaryKeyColumns and open write nothing. */
    method SetName(cacheName: string)
      ensures output == old(output) && selectedColumnIndices == old(selectedColumnIndices)
    {
    }

    method SetColumnTypes(columnTypes: seq<JClass>)
      ensures output == old(output) && selectedColumnIndices == old(selectedColumnIndices)
    {
    }

    method SetPrimaryKeyColumns(primaryKeyColumns: Option<seq<string>>)
      ensures output == old(output) && selectedColumnIndices == old(selectedColumnIndices)
    {
    }

    method Open()
      ensures output == old(output) && selectedColumnIndices == old(selectedColumnIndices)
    {
    }

    /** write(content): appends one line, as Emit describes. */
    method Write(content: seq<Option<string>>) returns (r: Result<()>)
      modifies this
      ensures output == old(output) + Emit(content, newline).text
      ensures r == Emit(content, newline).result
      ensures selectedColumnIndices == old(selectedColumnIndices)
    {
      if |content| == 0 {
        return Err(IndexOutOfBounds(0, -1));
      }
      var lastItem := |content| - 1;
      var i := 0;
      while i < lastItem
        invariant 0 <= i <= lastItem
        invariant forall j :: 0 <= j < i ==> content[j].Some?
        invariant output == old(output) + Lead(content[..i])
        invariant selectedColumnIndices == old(selectedColumnIndices)
      {
        if content[i].None? {
          assert FirstNull(content, lastItem) == i by {
            FirstNullAt(content, lastItem, i);
          }
          return Err(NullPointer);
        }
        LeadSnoc(content, i);
        output := output + content[i].value + ", ";
        i := i + 1;
      }
      FirstNullNone(content, lastItem);
      output := output + Text(content[lastItem]) + newline;
      r := Ok(());
    }

    /**
     * setColumnNames: with no selection, the header is every column name
     * (only when the header is wanted); with a selection, each selected name
     * is resolved to the first column equal to it ignoring case and recorded
     * (an unmatched name throws, leaving the positions recorded before it),
     * then the header is the selected names as given.
     */
    method SetColumnNames(columnNames: seq<string>) returns (r: Result<()>)
      modifies this
      ensures selectedColumnNames.None? ==> selectedColumnIndices == old(selectedColumnIndices)
      ensures selectedColumnNames.None? && includeHeader ==>
                var e := Emit(seq(|columnNames|, i requires 0 <= i < |columnNames| => Some(columnNames[i])), newline);
                output == old(output) + e.text && r == e.result
      ensures selectedColumnNames.Some? ==>
                selectedColumnIndices == old(selectedColumnIndices) + Resolution(selectedColumnNames.value, columnNames)
      ensures selectedColumnNames.Some? && !AllResolve(selectedColumnNames.value, columnNames) ==>
                r.Err? && r.error.Io? && output == old(output)
      ensures selectedColumnNames.Some? && AllResolve(selectedColumnNames.value, columnNames) && includeHeader ==>
                var sel := selectedColumnNames.value;
                var e := Emit(seq(|sel|, i requires 0 <= i < |sel| => Some(sel[i])), newline);
                output == old(output) + e.text && r == e.result
      ensures !includeHeader && (selectedColumnNames.None? || AllResolve(selectedColumnNames.value, columnNames)) ==>
                output == old(output) && r == Ok(())
    {
      if selectedColumnNames.None? {
        if includeHeader {
          r := Write(seq(|columnNames|, i requires 0 <= i < |columnNames| => Some(columnNames[i])));
        } else {
          r := Ok(());
        }
        return;
      }
      var sel := selectedColumnNames.value;
      var j := 0;
      while j < |sel|
        invariant 0 <= j <= |sel|
        invariant forall m :: 0 <= m < j ==> FirstMatch(sel[m], columnNames).Some?
        invariant |Resolution(sel, columnNames)| >= j
        invariant selectedColumnIndices == old(selectedColumnIndices) + Resolution(sel, columnNames)[..j]
        invariant output == old(output)
      {
        var colToWrite := sel[j];
        var positionOfColToWrite := PositionOf(colToWrite, columnNames);
        if positionOfColToWrite == -1 {
          ResolutionStops(sel, columnNames, j);
          return Err(Io("Column named " + colToWrite + " does not exist in column list."));
        }
        ResolutionGrows(sel, columnNames, j);
        selectedColumnIndices := selectedColumnIndices + [positionOfColToWrite as nat];
        j := j + 1;
      }
      assert sel[..|sel|] == sel;
      if includeHeader {
        r := Write(seq(|sel|, i requires 0 <= i < |sel| => Some(sel[i])));
      } else {
        r := Ok(());
      }
    }

    /**
     * writeRow: the whole row when there is no selection, otherwise the cells
     * at the recorded positions in the order recorded. A recorded position
     * beyond the row throws ArrayIndexOutOfBoundsException before anything
     * is written.
     */
    method WriteRow(row: seq<Option<string>>) returns (r: Result<()>)
      modifies this
      ensures selectedColumnIndices == old(selectedColumnIndices)
      ensures selectedColumnNames.None? ==>
                output == old(output) + Emit(row, newline).text && r == Emit(row, newline).result
      ensures selectedColumnNames.Some? && (forall k :: 0 <= k < |selectedColumnIndices| ==> selectedColumnIndices[k] < |row|) ==>
                var e := Emit(Project(row, selectedColumnIndices), newline);
                output == old(output) + e.text && r == e.result
      ensures selectedColumnNames.Some? && !(forall k :: 0 <= k < |selectedColumnIndices| ==> selectedColumnIndices[k] < |row|) ==>
                r.Err? && r.error.IndexOutOfBounds? && output == old(output)
    {
      if selectedColumnNames.None? {
        r := Write(row);
        return;
      }
      var dataToWrite: seq<Option<string>> := [];
      var i := 0;
      while i < |selectedColumnIndices|
        invariant 0 <= i <= |selectedColumnIndices|
        invariant forall k :: 0 <= k < i ==> selectedColumnIndices[k] < |row|
        invariant |dataToWrite| == i
        invariant forall k :: 0 <= k < i ==> dataToWrite[k] == row[selectedColumnIndices[k]]
      {
        var col := selectedColumnIndices[i];
        if col >= |row| {
          return Err(IndexOutOfBounds(|row|, col));
        }
        dataToWrite := dataToWrite + [row[col]];
        i := i + 1;
      }
      assert dataToWrite == Project(row, selectedColumnIndices);
      r := Write(dataToWrite);
    }
  }

  /** The search loop of setColumnNames: the first column named like `name` ignoring case, or -1. */
  method PositionOf(name: string, columnNames: seq<string>) returns (position: int)
    ensures -1 <= position < |columnNames|
    ensures position == -1 <==> FirstMatch(name, columnNames).None?
    ensures position != -1 ==> FirstMatch(name, columnNames) == Some(position as nat)
  {
    position := -1;
    var i := 0;
    while i < |columnNames|
      invariant 0 <= i <= |columnNames|
      invariant forall m :: 0 <= m < i ==> !EqualsIgnoreCase(name, columnNames[m])
    {
      if EqualsIgnoreCase(name, columnNames[i]) {
        position := i;
        return;
      }
      i := i + 1;
    }
  }

  lemma FirstNullAt(items: seq<Option<string>>, n: nat, i: nat)
    requires i < n <= |items|
    requires forall j :: 0 <= j < i ==> items[j].Some?
    requires items[i].None?
    ensures FirstNull(items, n) == i
  {
  }

  lemma FirstNullNone(items: seq<Option<string>>, n: nat)
    requires n <= |items|
    requires forall j :: 0 <= j < n ==> items[j].Some?
    ensures FirstNull(items, n) == n
  {
  }

  lemma {:induction false} ResolutionPrefix(selected: seq<string>, columnNames: seq<string>, j: nat)
    requires j <= |selected|
    requires forall m :: 0 <= m < j ==> FirstMatch(selected[m], columnNames).Some?
    ensures |Resolution(selected, columnNames)| >= j
    ensures Resolution(selected[..j], columnNames) == Resolution(selected, columnNames)[..j]
  {
    var r := Resolution(selected, columnNames);
    var p := Resolution(selected[..j], columnNames);
    assert |p| == j by {
      assert AllResolve(selected[..j], columnNames);
    }
    forall m | 0 <= m < j
      ensures p[m] == r[m]
    {
      assert FirstMatch(selected[..j][m], columnNames) == Some(p[m]);
      assert selected[..j][m] == selected[m];
    }
  }

  lemma ResolutionGrows(selected: seq<string>, columnNames: seq<string>, j: nat)
    requires j < |selected|
    requires forall m :: 0 <= m <= j ==> FirstMatch(selected[m], columnNames).Some?
    ensures |Resolution(selected, columnNames)| > j
    ensures Resolution(selected, columnNames)[..j + 1] ==
            Resolution(selected, columnNames)[..j] + [FirstMatch(selected[j], columnNames).value]
  {
    ResolutionPrefix(selected, columnNames, j + 1);
  }

  lemma ResolutionStops(selected: seq<string>, columnNames: seq<string>, j: nat)
    requires j < |selected|
    requires forall m :: 0 <= m < j ==> FirstMatch(selected[m], columnNames).Some?
    requires FirstMatch(selected[j], columnNames).None?
    ensures Resolution(selected, columnNames) == Resolution(selected, columnNames)[..j]
    ensures !AllResolve(selected, columnNames)
  {
    ResolutionPrefix(selected, columnNames, j);
  }
}
