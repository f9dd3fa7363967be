/** `csv_parser.cpp`: every line of the file becomes one row whose fields are
    the pieces that repeated `std::getline(lineStream, field, ',')` reads, with
    no quoting and no escaping. Opening the file is an input to the model: a
    file that cannot be opened is `None`. */
module CsvParser {
  import opened Wrappers
  import opened Strings

  /** `struct CSVRow`. */
  datatype CsvRow = CsvRow(fields: seq<string>)

  /** The rows `main` builds from the file's text. */
  function ParseCsv(text: string): (rows: seq<CsvRow>)
    ensures |rows| == |Pieces(text, '\n')|
    ensures forall i :: 0 <= i < |rows| ==> rows[i].fields == Pieces(Pieces(text, '\n')[i], ',')
  {
    var lines := Pieces(text, '\n');
    seq(|lines|, i requires 0 <= i < |lines| => CsvRow(Pieces(lines[i], ',')))
  }

  /** One successful `std::getline(stream, piece, d)` on the unread text `s`:
      the characters up to the next `d`, which is consumed. */
  method GetLine(s: string, d: char) returns (piece: string, rest: string)
    requires s != []
    ensures Pieces(s, d) == [piece] + Pieces(rest, d)
    ensures |rest| < |s|
  {
    var k := 0;
    while k < |s| && s[k] != d
      invariant 0 <= k <= |s|
      invariant forall j :: 0 <= j < k ==> s[j] != d
    {
      k := k + 1;
    }
    assert k == FieldEnd(s, d) by {
      FieldEndIsFirst(s, d, k);
    }
    piece := s[..k];
    rest := if k < |s| then s[k + 1..] else [];
    if k < |s| {
      PiecesStep(s, d, k);
    } else {
      WholePiece(s, d);
    }
  }

  lemma {:induction false} FieldEndIsFirst(s: string, d: char, k: nat)
    requires k <= |s| && (k < |s| ==> s[k] == d)
    requires forall j :: 0 <= j < k ==> s[j] != d
    ensures FieldEnd(s, d) == k
    decreases k
  {
    if k > 0 {
      FieldEndIsFirst(s[1..], d, k - 1);
    }
  }

  /** `main` after the file has been opened or not: exit status 1 before any
      parsing when it could not be opened, otherwise 0 and one row per line. */
  method ParseFile(file: Option<string>) returns (status: int, rows: seq<CsvRow>)
    ensures file.None? ==> status == 1 && rows == []
    ensures file.Some? ==> status == 0 && rows == ParseCsv(file.value)
  {
    if file.None? {
      return 1, [];
    }
    var text := file.value;
    rows := [];
    var unread := text;
    ghost var lines: seq<string> := [];
    while unread != []
      invariant Pieces(text, '\n') == lines + Pieces(unread, '\n')
      invariant |rows| == |lines|
      invariant forall i :: 0 <= i < |lines| ==> rows[i] == CsvRow(Pieces(lines[i], ','))
      decreases |unread|
    {
      var line, next := GetLine(unread, '\n');
      var fields := SplitFields(line);
      rows := rows + [CsvRow(fields)];
      lines := lines + [line];
      unread := next;
    }
    return 0, rows;
  }

  /** The inner loop: `row.fields.push_back(field)` for every field. */
  method SplitFields(line: string) returns (fields: seq<string>)
    ensures fields == Pieces(line, ',')
  {
    fields := [];
    var unread := line;
    while unread != []
      invariant Pieces(line, ',') == fields + Pieces(unread, ',')
      decreases |unread|
    {
      var field, next := GetLine(unread, ',');
      fields := fields + [field];
      unread := next;
    }
  }

  // ---------------------------------------------------------------------
  // Properties

  /** No field holds a comma, and joining the fields with "," gives the line
      back, except that a trailing comma is lost. */
  lemma FieldsRebuildLine(line: string)
    ensures forall f :: f in Pieces(line, ',') ==> ',' !in f
    ensures Join(Pieces(line, ','), ",") == if EndsWith(line, ',') then line[..|line| - 1] else line
  {
    PiecesHaveNoDelimiter(line, ',');
    JoinPieces(line, ',');
  }

  /** Interior empty fields are kept; an empty line has no field; a trailing
      comma adds no empty field. */
  lemma FieldExamples()
    ensures Pieces("a,,b", ',') == ["a", "", "b"]
    ensures Pieces("", ',') == []
    ensures Pieces("a,", ',') == ["a"]
  {
    FieldEndIsFirst("a,,b", ',', 1);
    PiecesStep("a,,b", ',', 1);
    assert "a,,b"[..1] == "a" && "a,,b"[2..] == ",b";
    FieldEndIsFirst(",b", ',', 0);
    PiecesStep(",b", ',', 0);
    assert ",b"[..0] == "" && ",b"[1..] == "b";
    FieldEndIsFirst("b", ',', 1);
    WholePiece("b", ',');
    FieldEndIsFirst("a,", ',', 1);
    PiecesStep("a,", ',', 1);
    assert "a,"[..1] == "a" && "a,"[2..] == "";
  }

  /** An empty file has no row; a final line without a line break is still a
      row. */
  lemma RowExamples()
    ensures ParseCsv("") == []
    ensures ParseCsv("x,y\nz") == [CsvRow(["x", "y"]), CsvRow(["z"])]
  {
    TwoLines();
    TwoFields();
    OneField();
    var rows := ParseCsv("x,y\nz");
    assert rows[0] == CsvRow(["x", "y"]);
    assert rows[1] == CsvRow(["z"]);
  }

  lemma TwoLines()
    ensures Pieces("x,y\nz", '\n') == ["x,y", "z"]
  {
    FieldEndIsFirst("x,y\nz", '\n', 3);
    PiecesStep("x,y\nz", '\n', 3);
    assert "x,y\nz"[..3] == "x,y" && "x,y\nz"[4..] == "z";
    FieldEndIsFirst("z", '\n', 1);
    WholePiece("z", '\n');
  }

  lemma TwoFields()
    ensures Pieces("x,y", ',') == ["x", "y"]
  {
    FieldEndIsFirst("x,y", ',', 1);
    PiecesStep("x,y", ',', 1);
    assert "x,y"[..1] == "x" && "x,y"[2..] == "y";
    FieldEndIsFirst("y", ',', 1);
    WholePiece("y", ',');
  }

  lemma OneField()
    ensures Pieces("z", ',') == ["z"]
  {
    FieldEndIsFirst("z", ',', 1);
    WholePiece("z", ',');
  }
}
