/** `TableMarkdown`: the markdown table layout of the README. */
module Markdown {
  import opened Results
  import opened PyStr

  /** A column header: a `str`, possibly with an `align` attribute. */
  datatype Header = Header(text: string, align: Option<string>)

  /** A matrix cell: a `str`, or any other value, which `str.join` refuses. */
  datatype Cell = Text(s: string) | NonText

  /** Headers given as plain strings, without `align`. */
  function PlainHeaders(names: seq<string>): (r: seq<Header>)
    ensures |r| == |names|
    ensures forall i :: 0 <= i < |r| ==> r[i] == Header(names[i], None)
  {
    if names == [] then [] else [Header(names[0], None)] + PlainHeaders(names[1..])
  }

  /** `dict(left="-", center=":-:", right="-:").get(align, "-")`, where a
      header without `align` counts as "left". */
  function AlignMark(align: Option<string>): (r: string)
    ensures r == ":-:" <==> align == Some("center")
    ensures r == "-:" <==> align == Some("right")
    ensures r != ":-:" && r != "-:" ==> r == "-"
  {
    match align
    case None => "-"
    case Some(a) =>
      if a == "center" then ":-:" else if a == "right" then "-:" else "-"
  }

  /** `get_separators`: one mark per header. */
  function Separators(headers: seq<Header>): (r: seq<string>)
    ensures |r| == |headers|
    ensures forall i :: 0 <= i < |r| ==> r[i] == AlignMark(headers[i].align)
  {
    if headers == [] then [] else [AlignMark(headers[0].align)] + Separators(headers[1..])
  }

  /** Plain headers are all left-aligned: every mark is "-". */
  lemma PlainSeparators(names: seq<string>)
    ensures Separators(PlainHeaders(names)) == seq(|names|, _ => "-")
  {
  }

  function HeaderTexts(headers: seq<Header>): (r: seq<string>)
    ensures |r| == |headers|
    ensures forall i :: 0 <= i < |r| ==> r[i] == headers[i].text
  {
    if headers == [] then [] else [headers[0].text] + HeaderTexts(headers[1..])
  }

  /** The cells of a row as strings, or the failure to join a non-`str`. */
  function CellTexts(row: seq<Cell>): (r: Result<seq<string>>)
    ensures r.Ok? <==> forall i :: 0 <= i < |row| ==> row[i].Text?
    ensures r.Err? ==> r.error == TypeFailure
    ensures r.Ok? ==> |r.value| == |row| && forall i :: 0 <= i < |row| ==> r.value[i] == row[i].s
  {
    if row == [] then Ok([])
    else if row[0].NonText? then Err(TypeFailure)
    else
      match CellTexts(row[1..])
      case Err(e) => Err(e)
      case Ok(rest) => Ok([row[0].s] + rest)
  }

  /** The lines of the rows: `list(map(lambda r: " |".join(r), matrix))`. */
  function RowLines(rows: seq<seq<Cell>>): (r: Result<seq<string>>)
    ensures r.Ok? <==> forall i, j :: 0 <= i < |rows| && 0 <= j < |rows[i]| ==> rows[i][j].Text?
    ensures r.Err? ==> r.error == TypeFailure
    ensures r.Ok? ==> |r.value| == |rows| && forall i :: 0 <= i < |rows| ==> r.value[i] == Join(CellTexts(rows[i]).value, " |")
  {
    if rows == [] then Ok([])
    else
      match CellTexts(rows[0])
      case Err(e) => Err(e)
      case Ok(cells) =>
        match RowLines(rows[1..])
        case Err(e) => Err(e)
        case Ok(rest) =>
          assert forall i :: 1 <= i < |rows| ==> rows[i] == rows[1..][i - 1];
          Ok([Join(cells, " |")] + rest)
  }

  /** `render`: fails on an empty matrix; otherwise the header line joined by
      `|`, the separator line joined by `|`, one line per row with its cells
      joined by ` |`, all joined by line breaks with none at the end. */
  function RenderTable(headers: seq<Header>, matrix: seq<seq<Cell>>): Result<string>
  {
    if matrix == [] then Err(EmptyTable)
    else
      var rows :- RowLines(matrix);
      Ok(Join([Join(HeaderTexts(headers), "|"), Join(Separators(headers), "|")] + rows, "\n"))
  }

  /** `render` fails exactly on an empty matrix or a cell that is not a `str`. */
  lemma RenderFails(headers: seq<Header>, matrix: seq<seq<Cell>>)
    ensures RenderTable(headers, matrix) == Err(EmptyTable) <==> matrix == []
    ensures RenderTable(headers, matrix).Ok? <==>
      matrix != [] && forall i, j :: 0 <= i < |matrix| && 0 <= j < |matrix[i]| ==> matrix[i][j].Text?
    ensures RenderTable(headers, matrix).Err? && matrix != [] ==> RenderTable(headers, matrix).error == TypeFailure
  {
  }

  lemma {:induction false} JoinWithout(parts: seq<string>, sep: string, c: char)
    requires c !in sep && forall i :: 0 <= i < |parts| ==> c !in parts[i]
    ensures c !in Join(parts, sep)
  {
    if |parts| > 1 {
      JoinWithout(parts[1..], sep, c);
    }
  }

  /** When no header and no cell holds a line break, the rendered table
      splits back into exactly its lines: the header line, the separator
      line, and one line per row, 2 + (number of rows) in all. */
  lemma RenderLines(headers: seq<Header>, matrix: seq<seq<Cell>>)
    requires RenderTable(headers, matrix).Ok?
    requires forall i :: 0 <= i < |headers| ==> '\n' !in headers[i].text
    requires forall i, j :: 0 <= i < |matrix| && 0 <= j < |matrix[i]| ==> '\n' !in matrix[i][j].s
    ensures var lines := Split(RenderTable(headers, matrix).value, '\n');
      && |lines| == 2 + |matrix|
      && lines[0] == Join(HeaderTexts(headers), "|")
      && lines[1] == Join(Separators(headers), "|")
      && forall i :: 0 <= i < |matrix| ==> lines[2 + i] == Join(CellTexts(matrix[i]).value, " |")
  {
    var rows := RowLines(matrix).value;
    var parts := [Join(HeaderTexts(headers), "|"), Join(Separators(headers), "|")] + rows;
    JoinWithout(HeaderTexts(headers), "|", '\n');
    JoinWithout(Separators(headers), "|", '\n');
    forall i | 0 <= i < |matrix|
      ensures '\n' !in rows[i]
    {
      JoinWithout(CellTexts(matrix[i]).value, " |", '\n');
    }
    assert forall i :: 2 <= i < |parts| ==> parts[i] == rows[i - 2];
    SplitJoin(parts, '\n');
  }

  /** A row of two text cells: its texts, and the line they join to. */
  lemma RowExample(a: string, b: string)
    ensures CellTexts([Text(a), Text(b)]) == Ok([a, b])
    ensures Join([a, b], " |") == a + " |" + b
  {
    var row := [Text(a), Text(b)];
    assert row[0].Text? && row[1].Text?;
    var r := CellTexts(row);
    assert r.Ok? && |r.value| == 2 && r.value[0] == a && r.value[1] == b;
    assert r.value == [a, b];
    assert [a, b][1..] == [b];
  }

  /** The header and separator lines of headers A and B. */
  lemma HeaderLinesExample()
    ensures Join(HeaderTexts([Header("A", None), Header("B", None)]), "|") == "A|B"
    ensures Join(Separators([Header("A", None), Header("B", None)]), "|") == "-|-"
  {
    var headers := [Header("A", None), Header("B", None)];
    assert HeaderTexts(headers) == ["A", "B"];
    assert Separators(headers) == ["-", "-"];
    assert ["A", "B"][1..] == ["B"];
    assert ["-", "-"][1..] == ["-"];
  }

  /** The row lines of rows x, y and 1, 2. */
  lemma RowLinesExample()
    ensures RowLines([[Text("x"), Text("y")], [Text("1"), Text("2")]]) == Ok(["x |y", "1 |2"])
  {
    var matrix := [[Text("x"), Text("y")], [Text("1"), Text("2")]];
    RowExample("x", "y");
    RowExample("1", "2");
    var rows := RowLines(matrix);
    assert forall i, j :: 0 <= i < |matrix| && 0 <= j < |matrix[i]| ==> matrix[i][j].Text?;
    assert rows.Ok? && |rows.value| == 2 && rows.value[0] == "x |y" && rows.value[1] == "1 |2";
    assert rows.value == ["x |y", "1 |2"];
  }

  /** The four lines joined by line breaks. */
  lemma LinesExample()
    ensures Join(["A|B", "-|-", "x |y", "1 |2"], "\n") == "A|B\n-|-\nx |y\n1 |2"
  {
    var lines := ["A|B", "-|-", "x |y", "1 |2"];
    assert lines[1..] == ["-|-", "x |y", "1 |2"] && lines[2..] == ["x |y", "1 |2"] && lines[3..] == ["1 |2"];
  }

  lemma RenderExample()
    ensures RenderTable([Header("A", None), Header("B", None)], [[Text("x"), Text("y")], [Text("1"), Text("2")]])
      == Ok("A|B\n-|-\nx |y\n1 |2")
  {
    HeaderLinesExample();
    RowLinesExample();
    LinesExample();
    assert ["A|B", "-|-"] + ["x |y", "1 |2"] == ["A|B", "-|-", "x |y", "1 |2"];
  }

  /** The renderer. Its headers and matrix are fixed when it is built. */
  class TableMarkdown {
    const headers: seq<Header>
    const matrix: seq<seq<Cell>>

    constructor (headers: seq<Header>, matrix: seq<seq<Cell>>)
      ensures this.headers == headers && this.matrix == matrix
    {
      this.headers := headers;
      this.matrix := matrix;
    }

    /** `get_separators`, with its loop. */
    method GetSeparators() returns (values: seq<string>)
      ensures |values| == |headers|
      ensures forall i :: 0 <= i < |headers| ==> values[i] == AlignMark(headers[i].align)
    {
      values := [];
      var i := 0;
      while i < |headers|
        invariant 0 <= i <= |headers|
        invariant |values| == i
        invariant forall j :: 0 <= j < i ==> values[j] == AlignMark(headers[j].align)
      {
        var align := headers[i].align;
        var value := AlignMark(align);
        values := values + [value];
        i := i + 1;
      }
    }

    /** `render`: the empty-table error on an empty matrix, otherwise the
        table, unless a cell is not a `str`. */
    function Render(): (r: Result<string>)
      ensures r == Err(EmptyTable) <==> matrix == []
      ensures r.Ok? <==> matrix != [] && forall i, j :: 0 <= i < |matrix| && 0 <= j < |matrix[i]| ==> matrix[i][j].Text?
      ensures r.Err? && matrix != [] ==> r.error == TypeFailure
    {
      RenderFails(headers, matrix);
      RenderTable(headers, matrix)
    }

    /** `__bool__` (and `__nonzero__`): the matrix is not empty, which is
        exactly when `render` does not fail for emptiness. */
    function IsTrue(): (b: bool)
      ensures b <==> |matrix| > 0
      ensures b <==> Render() != Err(EmptyTable)
    {
      |matrix| > 0
    }

    /** `__str__` and `__repr__`: the rendered table. They raise as `render`
        does: the empty-table error on an empty matrix, and a type error on a
        cell that is not a `str`. */
    function ToString(): (r: Result<string>)
      ensures r == RenderTable(headers, matrix)
      ensures r == Err(EmptyTable) <==> matrix == []
      ensures r.Ok? <==> matrix != [] && forall i, j :: 0 <= i < |matrix| && 0 <= j < |matrix[i]| ==> matrix[i][j].Text?
      ensures r.Err? && matrix != [] ==> r.error == TypeFailure
    {
      Render()
    }
  }
}
