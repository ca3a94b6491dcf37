/**
 The CSV branch of the audit-log export, and a reader written from the rules of section 2 of RFC 4180 with
 LF for line breaks. Dates and metadata enter as the text their serialisers print.
 */
module CsvExport {
  import opened Common
  import opened Text

  datatype Log = Log(id: string, userId: string, actionType: string, resource: Option<string>, result: Option<string>,
                     ipAddress: Option<string>, createdAt: string, metadata: Option<string>)

  const HEADERS := ["id", "userId", "actionType", "resource", "result", "ipAddress", "createdAt", "metadata"]

  /** The columns, by what they are called and what they hold. */
  datatype Column = Id | UserId | ActionType | Resource | ResultOf | IpAddress | CreatedAt | Metadata

  const COLUMNS := [Id, UserId, ActionType, Resource, ResultOf, IpAddress, CreatedAt, Metadata]

  function Name(c: Column): string {
    match c
    case Id => "id"
    case UserId => "userId"
    case ActionType => "actionType"
    case Resource => "resource"
    case ResultOf => "result"
    case IpAddress => "ipAddress"
    case CreatedAt => "createdAt"
    case Metadata => "metadata"
  }

  function Value(log: Log, c: Column): string {
    match c
    case Id => log.id
    case UserId => log.userId
    case ActionType => log.actionType
    case Resource => (match log.resource case Some(r) => r case None => "")
    case ResultOf => (match log.result case Some(r) => r case None => "")
    case IpAddress => (match log.ipAddress case Some(ip) => ip case None => "")
    case CreatedAt => log.createdAt
    case Metadata => (match log.metadata case Some(json) => json case None => "{}")
  }

  // ---- The writer -----------------------------------------------------------------------------

  function Double(s: string): string {
    ReplaceAll(s, '"', "\"\"")
  }

  function OrElse(o: Option<string>, otherwise: string): string {
    if o.Some? then o.value else otherwise
  }

  /** The cells of a row, as they are handed to the quoting step; the metadata has been doubled already. */
  function Cells(log: Log): (row: seq<string>)
    ensures |row| == |HEADERS|
  {
    [log.id, log.userId, log.actionType, OrElse(log.resource, ""), OrElse(log.result, ""), OrElse(log.ipAddress, ""),
     log.createdAt, Double(OrElse(log.metadata, "{}"))]
  }

  function Rows(logs: seq<Log>): (rows: seq<seq<string>>)
    ensures |rows| == |logs| && forall i | 0 <= i < |logs| :: rows[i] == Cells(logs[i])
  {
    seq(|logs|, i requires 0 <= i < |logs| => Cells(logs[i]))
  }

  function Quote(cell: string): string {
    "\"" + Double(cell) + "\""
  }

  function Quotes(row: seq<string>): (quoted: seq<string>)
    ensures |quoted| == |row| && forall i | 0 <= i < |row| :: quoted[i] == Quote(row[i])
  {
    seq(|row|, i requires 0 <= i < |row| => Quote(row[i]))
  }

  function Line(row: seq<string>): string {
    Join(Quotes(row), ',')
  }

  function Lines(rows: seq<seq<string>>): (lines: seq<string>)
    ensures |lines| == |rows| && forall i | 0 <= i < |rows| :: lines[i] == Line(rows[i])
  {
    seq(|rows|, i requires 0 <= i < |rows| => Line(rows[i]))
  }

  function ExportLogs(logs: seq<Log>): (text: string)
    ensures text == "" <==> logs == []
  {
    if logs == [] then "" else Join([Join(HEADERS, ',')] + Lines(Rows(logs)), '\n')
  }

  // ---- The reader -----------------------------------------------------------------------------

  /** An escaped field, after its opening quote: the text, and what follows the closing quote. */
  function ReadEscaped(s: string): (r: Option<(string, string)>)
    ensures r.Some? ==> |r.value.1| < |s|
  {
    if s == "" then None
    else if s[0] != '"' then Prepend(s[0], ReadEscaped(s[1..]))
    else if |s| > 1 && s[1] == '"' then Prepend('"', ReadEscaped(s[2..]))
    else Some(("", s[1..]))
  }

  /** A field without quotes ends before a comma or a line break; a quote or a CR may not stand in it. */
  function ReadPlain(s: string): (r: Option<(string, string)>)
    ensures r.Some? ==> |r.value.1| <= |s|
  {
    if s == "" || s[0] == ',' || s[0] == '\n' then Some(("", s))
    else if s[0] == '"' || s[0] == '\r' then None
    else Prepend(s[0], ReadPlain(s[1..]))
  }

  function Prepend(c: char, r: Option<(string, string)>): Option<(string, string)> {
    if r.None? then None else Some(([c] + r.value.0, r.value.1))
  }

  function ReadField(s: string): (r: Option<(string, string)>)
    ensures r.Some? ==> |r.value.1| <= |s|
  {
    if s != "" && s[0] == '"' then ReadEscaped(s[1..]) else ReadPlain(s)
  }

  /** Fields separated by commas, up to a line break or the end. */
  function ReadRecord(s: string): (r: Option<(seq<string>, string)>)
    ensures r.Some? ==> |r.value.1| <= |s|
    decreases |s|
  {
    var field := ReadField(s);
    if field.None? then None
    else
      var rest := field.value.1;
      if rest == "" || rest[0] == '\n' then Some(([field.value.0], rest))
      else if rest[0] != ',' then None
      else
        var more := ReadRecord(rest[1..]);
        if more.None? then None else Some(([field.value.0] + more.value.0, more.value.1))
  }

  /** Records separated by line breaks; the last one may or may not have one after it. */
  function ReadFile(s: string): Option<seq<seq<string>>>
    decreases |s|
  {
    var record := ReadRecord(s);
    if record.None? then None
    else
      var rest := record.value.1;
      if |rest| <= 1 then Some([record.value.0])
      else
        var more := ReadFile(rest[1..]);
        if more.None? then None else Some([record.value.0] + more.value)
  }

  /** Pairs of quotes read as one; the reader's own rule, applied to a whole text. */
  function Undouble(s: string): string {
    if s == "" then ""
    else if |s| > 1 && s[0] == '"' && s[1] == '"' then "\"" + Undouble(s[2..])
    else [s[0]] + Undouble(s[1..])
  }

  // ---- Round trip -----------------------------------------------------------------------------

  lemma DoubleFirst(s: string)
    requires s != ""
    ensures Double(s) == (if s[0] == '"' then ['"', '"'] else [s[0]]) + Double(s[1..])
  {
  }

  lemma {:induction false} EscapedFieldIsRead(cell: string, rest: string)
    requires rest == "" || rest[0] != '"'
    ensures ReadEscaped(Double(cell) + "\"" + rest) == Some((cell, rest))
  {
    var text := Double(cell) + "\"" + rest;
    if cell == "" {
      assert text == "\"" + rest && text[1..] == rest;
    } else {
      EscapedFieldIsRead(cell[1..], rest);
      DoubleFirst(cell);
      assert cell == [cell[0]] + cell[1..];
      var tail := Double(cell[1..]) + "\"" + rest;
      if cell[0] == '"' {
        assert text == ['"', '"'] + tail && text[2..] == tail;
      } else {
        assert text == [cell[0]] + tail && text[1..] == tail;
      }
    }
  }

  lemma QuotedFieldIsRead(cell: string, rest: string)
    requires rest == "" || rest[0] != '"'
    ensures ReadField(Quote(cell) + rest) == Some((cell, rest))
  {
    EscapedFieldIsRead(cell, rest);
    assert (Quote(cell) + rest)[1..] == Double(cell) + "\"" + rest;
  }

  /** A field and a comma in front of a record that is read. */
  lemma OneMoreField(cell: string, text: string, tail: string, row: seq<string>, rest: string)
    requires ReadField(text) == Some((cell, "," + tail)) && ReadRecord(tail) == Some((row, rest))
    ensures ReadRecord(text) == Some(([cell] + row, rest))
  {
    assert ("," + tail)[1..] == tail;
  }

  lemma {:induction false} LineIsRead(row: seq<string>, rest: string)
    requires row != [] && (rest == "" || rest[0] == '\n')
    ensures ReadRecord(Line(row) + rest) == Some((row, rest))
  {
    if |row| == 1 {
      QuotedFieldIsRead(row[0], rest);
      assert Line(row) == Quote(row[0]) && row == [row[0]];
    } else {
      LineIsRead(row[1..], rest);
      assert Quotes(row)[1..] == Quotes(row[1..]);
      var tail := Line(row[1..]) + rest;
      QuotedFieldIsRead(row[0], "," + tail);
      assert Line(row) + rest == Quote(row[0]) + ("," + tail);
      OneMoreField(row[0], Line(row) + rest, tail, row[1..], rest);
      assert row == [row[0]] + row[1..];
    }
  }

  /** A line in front of lines that are read. */
  lemma OneMoreLine(row: seq<string>, tail: string, rows: seq<seq<string>>)
    requires row != [] && tail != "" && ReadFile(tail) == Some(rows)
    ensures ReadFile(Line(row) + ("\n" + tail)) == Some([row] + rows)
  {
    LineIsRead(row, "\n" + tail);
    assert ("\n" + tail)[1..] == tail;
  }

  lemma OnlyLine(row: seq<string>)
    requires row != []
    ensures ReadFile(Line(row)) == Some([row])
  {
    LineIsRead(row, "");
    assert Line(row) + "" == Line(row);
  }

  lemma FirstLine(rows: seq<seq<string>>)
    requires |rows| > 1
    ensures Join(Lines(rows), '\n') == Line(rows[0]) + ("\n" + Join(Lines(rows[1..]), '\n'))
  {
    assert Lines(rows)[1..] == Lines(rows[1..]);
  }

  lemma {:induction false} LinesAreRead(rows: seq<seq<string>>)
    requires rows != [] && forall i | 0 <= i < |rows| :: rows[i] != []
    ensures ReadFile(Join(Lines(rows), '\n')) == Some(rows)
  {
    if |rows| == 1 {
      OnlyLine(rows[0]);
      assert rows == [rows[0]];
    } else {
      LinesAreRead(rows[1..]);
      LineNotEmpty(rows[1..]);
      FirstLine(rows);
      OneMoreLine(rows[0], Join(Lines(rows[1..]), '\n'), rows[1..]);
      assert rows == [rows[0]] + rows[1..];
    }
  }

  lemma LineNotEmpty(rows: seq<seq<string>>)
    requires rows != [] && rows[0] != []
    ensures Join(Lines(rows), '\n') != ""
  {
    assert Quotes(rows[0])[0] != "";
    assert Line(rows[0]) != "";
  }

  predicate Plain(name: string) {
    forall i | 0 <= i < |name| :: name[i] != ',' && name[i] != '\n' && name[i] != '\r' && name[i] != '"'
  }

  lemma {:induction false} PlainFieldIsRead(name: string, rest: string)
    requires Plain(name) && (rest == "" || rest[0] == ',' || rest[0] == '\n')
    ensures ReadPlain(name + rest) == Some((name, rest))
  {
    if name == "" {
      assert name + rest == rest;
    } else {
      PlainFieldIsRead(name[1..], rest);
      assert (name + rest)[1..] == name[1..] + rest;
      assert name == [name[0]] + name[1..];
    }
  }

  lemma NameIsRead(name: string, rest: string)
    requires name != "" && Plain(name) && (rest == "" || rest[0] == ',' || rest[0] == '\n')
    ensures ReadField(name + rest) == Some((name, rest))
  {
    PlainFieldIsRead(name, rest);
    assert (name + rest)[0] == name[0];
  }

  lemma {:induction false} HeaderIsRead(names: seq<string>, rest: string)
    requires names != [] && (forall i | 0 <= i < |names| :: names[i] != "" && Plain(names[i]))
    requires rest == "" || rest[0] == '\n'
    ensures ReadRecord(Join(names, ',') + rest) == Some((names, rest))
  {
    var text := Join(names, ',') + rest;
    if |names| == 1 {
      NameIsRead(names[0], rest);
      assert names == [names[0]];
    } else {
      HeaderIsRead(names[1..], rest);
      var tail := Join(names[1..], ',') + rest;
      NameIsRead(names[0], "," + tail);
      assert text == names[0] + ("," + tail);
      OneMoreField(names[0], text, tail, names[1..], rest);
      assert names == [names[0]] + names[1..];
    }
  }

  lemma HeadersArePlain()
    ensures forall i | 0 <= i < |HEADERS| :: HEADERS[i] != "" && Plain(HEADERS[i])
  {
    assert Plain("id") && Plain("userId") && Plain("actionType") && Plain("resource");
    assert Plain("result") && Plain("ipAddress") && Plain("createdAt") && Plain("metadata");
  }

  /** Reading the export of any logs gives the column names and exactly the cells that were written, row by row. */
  lemma ExportRoundTrips(logs: seq<Log>)
    requires logs != []
    ensures ReadFile(ExportLogs(logs)) == Some([HEADERS] + Rows(logs))
  {
    var lines := Lines(Rows(logs));
    var tail := Join(lines, '\n');
    var text := ExportLogs(logs);
    assert ([Join(HEADERS, ',')] + lines)[1..] == lines;
    HeadersArePlain();
    HeaderIsRead(HEADERS, "\n" + tail);
    assert text == Join(HEADERS, ',') + ("\n" + tail);
    LinesAreRead(Rows(logs));
    LineNotEmpty(Rows(logs));
    assert ("\n" + tail)[1..] == tail;
  }

  lemma {:induction false} UndoubleInverts(s: string)
    ensures Undouble(Double(s)) == s
  {
    if s != "" {
      UndoubleInverts(s[1..]);
      DoubleFirst(s);
      assert s == [s[0]] + s[1..];
      if s[0] == '"' {
        assert Double(s)[2..] == Double(s[1..]);
      } else {
        assert Double(s)[1..] == Double(s[1..]);
      }
    }
  }

  lemma {:induction false} DoubleLengthens(s: string)
    ensures |Double(s)| >= |s| && (Double(s) == s <==> '"' !in s)
    ensures '"' in s ==> |Double(s)| > |s|
  {
    if s != "" {
      DoubleLengthens(s[1..]);
      DoubleFirst(s);
      assert s == [s[0]] + s[1..];
    }
  }

  /**
   A reader finds under each column's name that column's value. Only the metadata is doubled before the
   quoting step doubles every cell: there the JSON text itself is found exactly when it has no quote, and
   undoing the extra doubling always recovers it.
   */
  lemma CellsAreLabelled(logs: seq<Log>, i: nat, j: nat)
    requires i < |logs| && j < |COLUMNS|
    ensures match ReadFile(ExportLogs(logs))
            case None => false
            case Some(records) =>
              && |records| == |logs| + 1 && |records[0]| == |records[i + 1]| == |COLUMNS|
              && var (cell, value) := (records[i + 1][j], Value(logs[i], COLUMNS[j]));
              && records[0][j] == Name(COLUMNS[j])
              && (COLUMNS[j] != Metadata ==> cell == value)
              && (COLUMNS[j] == Metadata ==> Undouble(cell) == value && (cell == value <==> '"' !in value))
  {
    ExportRoundTrips(logs);
    CellOf(logs[i], j);
    var records := [HEADERS] + Rows(logs);
    assert records[0] == HEADERS && records[i + 1] == Cells(logs[i]);
    UndoubleInverts(Value(logs[i], COLUMNS[j]));
    DoubleLengthens(Value(logs[i], COLUMNS[j]));
  }

  lemma CellOf(log: Log, j: nat)
    requires j < |COLUMNS|
    ensures HEADERS[j] == Name(COLUMNS[j])
    ensures Cells(log)[j] == if COLUMNS[j] == Metadata then Double(Value(log, COLUMNS[j])) else Value(log, COLUMNS[j])
  {
  }
}
