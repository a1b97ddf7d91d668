/**
 The Markdown table printer (`backend/app/parsers/base.py`) and a reader of what it prints: lines
 end at newlines, cells at pipes that no backslash precedes
 (GitHub Flavored Markdown Spec, section 4.10).
 */
module TableMarkdown {
  import opened Sequences
  import opened Text

  // ---------------------------------------------------------------- the printer

  /** `value.replace("|", "\\|")` */
  function EscapePipes(value: string): string {
    if value == "" then ""
    else (if value[0] == '|' then ['\\', '|'] else [value[0]]) + EscapePipes(value[1..])
  }

  /** `value.replace("\n", " ")` */
  function FlattenNewlines(value: string): string {
    if value == "" then "" else [if value[0] == '\n' then ' ' else value[0]] + FlattenNewlines(value[1..])
  }

  function Escape(value: string): string {
    Strip(FlattenNewlines(EscapePipes(value)))
  }

  function EscapeAll(row: seq<string>): (escaped: seq<string>)
    ensures |escaped| == |row|
  {
    seq(|row|, i requires 0 <= i < |row| => Escape(row[i]))
  }

  function Digits(n: nat): string {
    (if n < 10 then "" else Digits(n / 10)) + [(n % 10) as char + '0']
  }

  function ColumnNames(width: nat): (names: seq<string>)
    ensures |names| == width
  {
    seq(width, i requires 0 <= i => "column_" + Digits(i + 1))
  }

  function Blanks(width: nat): (cells: seq<string>)
    ensures |cells| == width
  {
    seq(width, i => "")
  }

  function Separators(width: nat): (cells: seq<string>)
    ensures |cells| == width
  {
    seq(width, i => "---")
  }

  /** The most cells in any of the rows. */
  function Widest(rows: seq<seq<string>>): nat {
    if rows == [] then 0
    else
      var rest := Widest(rows[1..]);
      if |rows[0]| > rest then |rows[0]| else rest
  }

  function Width(headers: seq<string>, rows: seq<seq<string>>): nat {
    Widest([headers] + rows)
  }

  /** `(row + padding)[:width]`: missing headers are named from `column_1` on, wherever they stand. */
  function Padded(row: seq<string>, padding: seq<string>, width: nat): (cells: seq<string>)
    requires |padding| == width
    ensures |cells| == width
  {
    (row + padding)[..width]
  }

  function Line(cells: seq<string>): string {
    "| " + Join(" | ", cells) + " |"
  }

  /** The cells of every printed line but the separators, before they are escaped. */
  function PaddedHeaders(headers: seq<string>, width: nat): seq<string> {
    Padded(headers, ColumnNames(width), width)
  }

  function PaddedRows(rows: seq<seq<string>>, width: nat): (padded: seq<seq<string>>)
    ensures |padded| == |rows|
  {
    seq(|rows|, i requires 0 <= i < |rows| => Padded(rows[i], Blanks(width), width))
  }

  function RowLines(rows: seq<seq<string>>): (lines: seq<string>)
    ensures |lines| == |rows|
  {
    seq(|rows|, i requires 0 <= i < |rows| => Line(EscapeAll(rows[i])))
  }

  function Lines(headers: seq<string>, rows: seq<seq<string>>, width: nat): seq<string> {
    [Line(EscapeAll(PaddedHeaders(headers, width))), Line(Separators(width))] + RowLines(PaddedRows(rows, width))
  }

  function TableToMarkdown(headers: seq<string>, rows: seq<seq<string>>): string {
    var width := Width(headers, rows);
    if width == 0 then "" else Join("\n", Lines(headers, rows, width))
  }

  // ---------------------------------------------------------------- the reader

  /** The pieces of a text between the given characters. */
  function SplitOn(text: string, separator: char): (pieces: seq<string>)
    ensures pieces != []
  {
    if text == "" then [""]
    else
      var rest := SplitOn(text[1..], separator);
      if text[0] == separator then [""] + rest else [[text[0]] + rest[0]] + rest[1..]
  }

  /** The pieces of a line between the pipes that no backslash precedes; `escaped`: one precedes the line. */
  function SplitCells(line: string, escaped: bool): (pieces: seq<string>)
    ensures pieces != []
  {
    if line == "" then [""]
    else if line[0] == '|' && !escaped then [""] + SplitCells(line[1..], false)
    else
      var rest := SplitCells(line[1..], line[0] == '\\');
      [[line[0]] + rest[0]] + rest[1..]
  }

  function Unescape(text: string): string {
    if text == "" then ""
    else if |text| >= 2 && text[0] == '\\' && text[1] == '|' then "|" + Unescape(text[2..])
    else [text[0]] + Unescape(text[1..])
  }

  /** The cells of a line, without what is before its first and after its last pipe. */
  function ReadLine(line: string): seq<string> {
    var pieces := SplitCells(line, false);
    if |pieces| < 2 then [] else ReadPieces(pieces[1..|pieces| - 1])
  }

  function ReadPieces(pieces: seq<string>): (cells: seq<string>)
    ensures |cells| == |pieces|
  {
    seq(|pieces|, i requires 0 <= i < |pieces| => Unescape(Strip(pieces[i])))
  }

  function ReadTable(text: string): seq<seq<string>> {
    var lines := SplitOn(text, '\n');
    seq(|lines|, i requires 0 <= i < |lines| => ReadLine(lines[i]))
  }

  // ---------------------------------------------------------------- what a cell becomes

  /** A cell as the reader sees it: newlines are spaces and its ends are trimmed. */
  function Clean(value: string): string {
    Strip(FlattenNewlines(value))
  }

  function CleanAll(row: seq<string>): (cells: seq<string>)
    ensures |cells| == |row|
  {
    seq(|row|, i requires 0 <= i < |row| => Clean(row[i]))
  }

  // ---------------------------------------------------------------- cells

  /** A clean cell is the trimmed value with a space for each newline and every other character as it is. */
  lemma {:induction false} NewlinesAreSpaces(value: string)
    ensures |FlattenNewlines(value)| == |value|
    ensures forall i | 0 <= i < |value| :: FlattenNewlines(value)[i] == if value[i] == '\n' then ' ' else value[i]
  {
    if value != "" {
      NewlinesAreSpaces(value[1..]);
      forall i | 0 < i < |value|
        ensures FlattenNewlines(value)[i] == if value[i] == '\n' then ' ' else value[i]
      {
        assert FlattenNewlines(value)[i] == FlattenNewlines(value[1..])[i - 1] && value[i] == value[1..][i - 1];
      }
    }
  }

  /** Escaping puts a backslash before each pipe and keeps everything else. */
  lemma {:induction false} PipesGetBackslashes(a: string, c: char)
    ensures EscapePipes(a + [c]) == EscapePipes(a) + if c == '|' then "\\|" else [c]
  {
    if a == "" {
      assert a + [c] == [c] && [c][1..] == "" && EscapePipes("") == "";
    } else {
      assert (a + [c])[1..] == a[1..] + [c];
      PipesGetBackslashes(a[1..], c);
    }
  }

  // ---------------------------------------------------------------- widths and names

  /** The table is as wide as its widest line, headers included. */
  lemma WidthIsMost(headers: seq<string>, rows: seq<seq<string>>)
    ensures |headers| <= Width(headers, rows) && forall row | row in rows :: |row| <= Width(headers, rows)
    ensures Width(headers, rows) == |headers| || exists row :: row in rows && |row| == Width(headers, rows)
  {
    WidestIsMost([headers] + rows);
    assert ([headers] + rows)[0] == headers;
    assert forall row | row in rows :: row in [headers] + rows;
  }

  lemma {:induction false} WidestIsMost(rows: seq<seq<string>>)
    ensures forall row | row in rows :: |row| <= Widest(rows)
    ensures rows != [] ==> exists row :: row in rows && |row| == Widest(rows)
  {
    if rows != [] {
      WidestIsMost(rows[1..]);
      assert rows == [rows[0]] + rows[1..];
      if |rows[0]| >= Widest(rows[1..]) { assert rows[0] in rows && |rows[0]| == Widest(rows); }
    }
  }

  /** A padded row has its cells and then empty ones, padded headers have theirs and then `column_1` and so on. */
  lemma PaddedCells(headers: seq<string>, rows: seq<seq<string>>, i: nat, k: nat)
    requires i < Width(headers, rows) && k < |rows|
    ensures PaddedHeaders(headers, Width(headers, rows))[i] ==
      if i < |headers| then headers[i] else "column_" + Digits(i - |headers| + 1)
    ensures PaddedRows(rows, Width(headers, rows))[k][i] == if i < |rows[k]| then rows[k][i] else ""
  {
    hide Digits, Width, Padded, ColumnNames, Blanks;
    var width := Width(headers, rows);
    WidthIsMost(headers, rows);
    PaddedCell(headers, ColumnNames(width), width, i);
    PaddedCell(rows[k], Blanks(width), width, i);
    NameOf(width, if i < |headers| then 0 else i - |headers|);
    BlankOf(width, i);
  }

  lemma PaddedCell(row: seq<string>, padding: seq<string>, width: nat, i: nat)
    requires |padding| == width && i < width
    ensures Padded(row, padding, width)[i] == if i < |row| then row[i] else padding[i - |row|]
  {
  }

  lemma NameOf(width: nat, i: nat)
    requires i < width
    ensures ColumnNames(width)[i] == "column_" + Digits(i + 1)
  {
    hide Digits;
  }

  lemma BlankOf(width: nat, i: nat)
    requires i < width
    ensures forall k | 0 <= k < width :: Blanks(width)[k] == ""
  {
  }

  /** The number that a text of digits stands for. */
  function ValueOf(digits: string): nat {
    if digits == "" then 0
    else
      var last := digits[|digits| - 1] as int;
      10 * ValueOf(digits[..|digits| - 1]) + if last >= 48 then last - 48 else 0
  }

  /** Numbers are written in decimal without leading zeros. */
  lemma {:induction false} DigitsAreDecimal(n: nat)
    ensures ValueOf(Digits(n)) == n && (forall c | c in Digits(n) :: '0' <= c <= '9')
    ensures Digits(n) != "" && (n > 0 ==> Digits(n)[0] != '0')
  {
    hide ValueOf;
    var last := (n % 10) as char + '0';
    LastDigit(n % 10);
    NoValue();
    if n < 10 {
      ValueOfMore("", last);
      assert "" + [last] == [last];
    } else {
      hide Digits;
      DigitsAreDecimal(n / 10);
      DigitsOfMore(n);
      ValueOfMore(Digits(n / 10), last);
    }
  }

  lemma LastDigit(d: nat)
    requires d < 10
    ensures '0' <= d as char + '0' <= '9' && (d as char + '0') as int == 48 + d
  {
  }

  lemma NoValue()
    ensures ValueOf("") == 0
  {
  }

  lemma ValueOfMore(digits: string, last: char)
    requires '0' <= last
    ensures ValueOf(digits + [last]) == 10 * ValueOf(digits) + (last as int - 48)
  {
    assert (digits + [last])[..|digits|] == digits;
  }

  lemma DigitsOfMore(n: nat)
    requires n >= 10
    ensures Digits(n) == Digits(n / 10) + [(n % 10) as char + '0']
  {
  }

  lemma {:induction false} UnescapeUndoes(value: string)
    ensures Unescape(EscapePipes(value)) == value
  {
    if value != "" {
      UnescapeUndoes(value[1..]);
      var rest := EscapePipes(value[1..]);
      assert value == [value[0]] + value[1..];
      if value[0] == '|' {
        assert (['\\', '|'] + rest)[2..] == rest;
      } else {
        assert ([value[0]] + rest)[1..] == rest;
        assert rest != "" ==> rest[0] != '|';
      }
    }
  }

  lemma {:induction false} EscapeThenFlatten(value: string)
    ensures FlattenNewlines(EscapePipes(value)) == EscapePipes(FlattenNewlines(value))
  {
    if value != "" {
      EscapeThenFlatten(value[1..]);
      var rest := EscapePipes(value[1..]);
      if value[0] == '|' {
        assert (['\\', '|'] + rest)[1..] == ['|'] + rest && (['|'] + rest)[1..] == rest;
      } else {
        assert ([value[0]] + rest)[1..] == rest;
      }
    }
  }

  lemma {:induction false} EscapeLast(value: string, c: char)
    ensures EscapePipes(value + [c]) == EscapePipes(value) + (if c == '|' then ['\\', '|'] else [c])
  {
    if value == "" {
      assert value + [c] == [c] && [c][1..] == "";
    } else {
      assert (value + [c])[1..] == value[1..] + [c];
      EscapeLast(value[1..], c);
    }
  }

  lemma {:induction false} EscapeThenLStrip(value: string)
    ensures LStrip(EscapePipes(value)) == EscapePipes(LStrip(value))
  {
    if value != "" && IsSpace(value[0]) {
      EscapeThenLStrip(value[1..]);
      assert EscapePipes(value)[1..] == EscapePipes(value[1..]);
    }
  }

  lemma {:induction false} EscapeThenRStrip(value: string)
    ensures RStrip(EscapePipes(value)) == EscapePipes(RStrip(value))
  {
    if value != "" {
      var n := |value| - 1;
      assert value == value[..n] + [value[n]];
      EscapeLast(value[..n], value[n]);
      if IsSpace(value[n]) {
        EscapeThenRStrip(value[..n]);
        assert EscapePipes(value)[..|EscapePipes(value)| - 1] == EscapePipes(value[..n]);
      }
    }
  }

  /** Escaping prints the clean cell, with its pipes escaped. */
  lemma EscapeIsClean(value: string)
    ensures Escape(value) == EscapePipes(Clean(value))
  {
    EscapeThenFlatten(value);
    EscapeThenLStrip(FlattenNewlines(value));
    EscapeThenRStrip(LStrip(FlattenNewlines(value)));
  }

  // ---------------------------------------------------------------- reading one line

  /** A character that ends no cell belongs to the first piece. */
  lemma CharJoinsPiece(c: char, rest: string, escaped: bool, piece: string, pieces: seq<string>)
    requires c != '|' || escaped
    requires SplitCells(rest, c == '\\') == [piece] + pieces
    ensures SplitCells([c] + rest, escaped) == [[c] + piece] + pieces
  {
    assert ([c] + rest)[1..] == rest;
  }

  /** A blank and the pipe after it end a cell. */
  lemma PipeEndsPiece(rest: string, escaped: bool)
    ensures SplitCells(" |" + rest, escaped) == [" "] + SplitCells(rest, false)
  {
    FirstPipe(rest);
    assert " |" + rest == [' '] + ("|" + rest);
    CharJoinsPiece(' ', "|" + rest, escaped, "", SplitCells(rest, false));
    assert [' '] + "" == " ";
  }

  lemma FirstPipe(rest: string)
    ensures SplitCells("|" + rest, false) == [""] + SplitCells(rest, false)
  {
    assert ("|" + rest)[1..] == rest;
  }

  /** Text whose pipes are all escaped is one piece, up to the blank and the pipe that follow it. */
  lemma {:induction false} CellIsOnePiece(value: string, rest: string, escaped: bool)
    ensures SplitCells(EscapePipes(value) + " |" + rest, escaped) ==
      [EscapePipes(value) + " "] + SplitCells(rest, false)
    decreases |value|
  {
    hide SplitCells;
    var pieces := SplitCells(rest, false);
    if value == "" {
      PipeEndsPiece(rest, escaped);
      assert EscapePipes(value) + " |" + rest == " |" + rest && EscapePipes(value) + " " == " ";
    } else {
      var cell := EscapePipes(value[1..]);
      var inner := cell + " |" + rest;
      if value[0] == '|' {
        CellIsOnePiece(value[1..], rest, false);
        CharJoinsPiece('|', inner, true, cell + " ", pieces);
        CharJoinsPiece('\\', ['|'] + inner, escaped, ['|'] + (cell + " "), pieces);
        assert EscapePipes(value) + " |" + rest == ['\\'] + (['|'] + inner);
        assert EscapePipes(value) + " " == ['\\'] + (['|'] + (cell + " "));
      } else {
        CellIsOnePiece(value[1..], rest, value[0] == '\\');
        CharJoinsPiece(value[0], inner, escaped, cell + " ", pieces);
        assert EscapePipes(value) + " |" + rest == [value[0]] + inner;
        assert EscapePipes(value) + " " == [value[0]] + (cell + " ");
      }
    }
  }

  /** Cells, each between a blank and a blank with a pipe. */
  function Body(cells: seq<string>): string {
    if cells == [] then "" else " " + cells[0] + " |" + Body(cells[1..])
  }

  lemma {:induction false} BodyIsJoined(cells: seq<string>)
    requires cells != []
    ensures Body(cells) == " " + Join(" | ", cells) + " |"
  {
    if |cells| == 1 {
      assert cells[1..] == [];
    } else {
      BodyIsJoined(cells[1..]);
      Regroup(cells[0], Join(" | ", cells[1..]));
    }
  }

  lemma Regroup(cell: string, rest: string)
    ensures " " + cell + " |" + (" " + rest + " |") == " " + (cell + " | " + rest) + " |"
  {
    assert " |" + " " == " | ";
  }

  lemma LineIsBody(cells: seq<string>)
    requires cells != []
    ensures Line(cells) == "|" + Body(cells)
  {
    BodyIsJoined(cells);
    assert "|" + " " == "| ";
  }

  function EscapedAll(values: seq<string>): (escaped: seq<string>)
    ensures |escaped| == |values|
  {
    seq(|values|, i requires 0 <= i < |values| => EscapePipes(values[i]))
  }

  function Spaced(cells: seq<string>): (pieces: seq<string>)
    ensures |pieces| == |cells|
  {
    seq(|cells|, i requires 0 <= i < |cells| => " " + cells[i] + " ")
  }

  lemma SpacedCons(values: seq<string>)
    requires values != []
    ensures EscapedAll(values)[0] == EscapePipes(values[0]) && EscapedAll(values)[1..] == EscapedAll(values[1..])
    ensures Spaced(EscapedAll(values)) == [" " + EscapePipes(values[0]) + " "] + Spaced(EscapedAll(values[1..]))
  {
    hide EscapePipes;
  }

  lemma {:induction false} SplitBody(values: seq<string>)
    ensures SplitCells(Body(EscapedAll(values)), false) == Spaced(EscapedAll(values)) + [""]
  {
    if values != [] {
      hide SplitCells, EscapePipes, EscapedAll, Spaced;
      var cell, tail := EscapePipes(values[0]), EscapedAll(values[1..]);
      SplitBody(values[1..]);
      SpacedCons(values);
      CellIsOnePiece(values[0], Body(tail), false);
      var inner := cell + " |" + Body(tail);
      CharJoinsPiece(' ', inner, false, cell + " ", SplitCells(Body(tail), false));
      assert Body(EscapedAll(values)) == [' '] + inner by {
        assert EscapedAll(values) == [cell] + tail && ([cell] + tail)[1..] == tail;
        assert " " + cell + " |" + Body(tail) == [' '] + (cell + " |" + Body(tail));
      }
      hide Body;
      assert [' '] + (cell + " ") == " " + cell + " ";
    }
  }

  lemma ReadCell(value: string)
    requires Stripped(value)
    ensures Unescape(Strip(" " + EscapePipes(value) + " ")) == value
  {
    UnescapeUndoes(value);
    EscapeThenLStrip(value);
    EscapeThenRStrip(value);
    StripFixed(value);
    if value == "" {
      assert (" " + "" + " ")[1..] == " " && " "[1..] == "";
    } else {
      StripPadded(" ", EscapePipes(value), " ");
    }
  }

  /** A printed line of stripped values is read back as these values. */
  lemma LineReadsBack(values: seq<string>)
    requires values != [] && forall i | 0 <= i < |values| :: Stripped(values[i])
    ensures ReadLine(Line(EscapedAll(values))) == values
  {
    hide EscapePipes, Strip, Stripped, Unescape, SplitCells, Body;
    var cells := EscapedAll(values);
    LineIsBody(cells);
    SplitBody(values);
    FirstPipe(Body(cells));
    var pieces := SplitCells(Line(cells), false);
    assert pieces == [""] + Spaced(cells) + [""];
    assert pieces[1..|pieces| - 1] == Spaced(cells);
    forall i | 0 <= i < |values| ensures ReadLine(Line(cells))[i] == values[i] {
      ReadCell(values[i]);
    }
  }

  // ---------------------------------------------------------------- reading the table

  lemma {:induction false} SplitHead(head: string, tail: string)
    requires '\n' !in head
    ensures SplitOn(head + "\n" + tail, '\n') == [head] + SplitOn(tail, '\n')
    ensures SplitOn(head, '\n') == [head]
  {
    if head == "" {
      assert head + "\n" + tail == "\n" + tail && ("\n" + tail)[1..] == tail;
    } else {
      SplitHead(head[1..], tail);
      assert (head + "\n" + tail)[1..] == head[1..] + "\n" + tail;
      assert [head[0]] + head[1..] == head;
    }
  }

  lemma {:induction false} SplitJoined(lines: seq<string>)
    requires lines != [] && forall i | 0 <= i < |lines| :: '\n' !in lines[i]
    ensures SplitOn(Join("\n", lines), '\n') == lines
  {
    if |lines| == 1 {
      SplitHead(lines[0], "");
    } else {
      SplitHead(lines[0], Join("\n", lines[1..]));
      SplitJoined(lines[1..]);
      assert lines == [lines[0]] + lines[1..];
    }
  }

  lemma {:induction false} NoNewlineLeft(value: string)
    ensures '\n' !in FlattenNewlines(value)
  {
    if value != "" { NoNewlineLeft(value[1..]); }
  }

  lemma {:induction false} EscapeAddsNoNewline(value: string)
    requires '\n' !in value
    ensures '\n' !in EscapePipes(value)
  {
    if value != "" { EscapeAddsNoNewline(value[1..]); }
  }

  lemma {:induction false} StripIsPart(value: string)
    ensures forall c | c in Strip(value) :: c in value
  {
    LStripIsPart(value);
    RStripIsPart(LStrip(value));
  }

  lemma {:induction false} LStripIsPart(value: string)
    ensures forall c | c in LStrip(value) :: c in value
  {
    if value != "" && IsSpace(value[0]) { LStripIsPart(value[1..]); }
  }

  lemma {:induction false} RStripIsPart(value: string)
    ensures forall c | c in RStrip(value) :: c in value
  {
    if value != "" && IsSpace(value[|value| - 1]) { RStripIsPart(value[..|value| - 1]); }
  }

  lemma CleanHasNoNewline(value: string)
    ensures '\n' !in Clean(value) && '\n' !in EscapePipes(Clean(value))
  {
    NoNewlineLeft(value);
    StripIsPart(FlattenNewlines(value));
    EscapeAddsNoNewline(Clean(value));
  }

  lemma {:induction false} BodyChars(cells: seq<string>, c: char)
    requires c != ' ' && c != '|'
    ensures c in Body(cells) <==> exists i :: 0 <= i < |cells| && c in cells[i]
  {
    if cells != [] {
      BodyChars(cells[1..], c);
      if c in cells[0] { assert 0 <= 0 < |cells| && c in cells[0]; }
      if j :| 0 <= j < |cells[1..]| && c in cells[1..][j] { assert c in cells[j + 1]; }
      if i :| 0 <= i < |cells| && c in cells[i] {
        if i > 0 { assert c in cells[1..][i - 1]; }
      }
    }
  }

  /** A line of escaped values: the values are clean, so it is one line. */
  lemma PrintedLine(row: seq<string>)
    requires row != []
    ensures EscapeAll(row) == EscapedAll(CleanAll(row))
    ensures '\n' !in Line(EscapeAll(row))
    ensures ReadLine(Line(EscapeAll(row))) == CleanAll(row)
  {
    hide Escape, Clean, EscapePipes, Body, Line, ReadLine, Stripped;
    forall i | 0 <= i < |row|
      ensures Escape(row[i]) == EscapePipes(Clean(row[i])) && '\n' !in Escape(row[i]) && Stripped(Clean(row[i]))
    {
      EscapeIsClean(row[i]);
      CleanHasNoNewline(row[i]);
      CleanIsStripped(row[i]);
    }
    LineIsBody(EscapeAll(row));
    BodyChars(EscapeAll(row), '\n');
    LineReadsBack(CleanAll(row));
  }

  lemma CleanIsStripped(value: string)
    ensures Stripped(Clean(value))
  {
  }

  /** The separators are cells that print as they are. */
  lemma SeparatorLine(width: nat)
    requires width > 0
    ensures Line(Separators(width)) == Line(EscapeAll(Separators(width)))
    ensures CleanAll(Separators(width)) == Separators(width)
  {
    hide Line, Escape, Clean;
    Dashes();
    assert EscapeAll(Separators(width)) == Separators(width);
  }

  lemma Dashes()
    ensures Clean("---") == "---" && Escape("---") == "---"
  {
    assert "---"[1..] == "--" && "--"[1..] == "-" && "-"[1..] == "";
    assert EscapePipes("-") == "-" && EscapePipes("--") == "--" && EscapePipes("---") == "---";
    assert FlattenNewlines("-") == "-" && FlattenNewlines("--") == "--" && FlattenNewlines("---") == "---";
    StripFixed("---");
  }

  /** The table as its reader sees it: clean headers, separators, clean rows, all equally wide. */
  function CleanTable(headers: seq<string>, rows: seq<seq<string>>): (table: seq<seq<string>>)
    ensures |table| == |rows| + 2
    ensures forall i | 0 <= i < |table| :: |table[i]| == Width(headers, rows)
  {
    var width := Width(headers, rows);
    [CleanAll(PaddedHeaders(headers, width)), Separators(width)]
    + seq(|rows|, i requires 0 <= i < |rows| => CleanAll(PaddedRows(rows, width)[i]))
  }

  /** Every printed line, whichever it is, is the printed form of a row of the padded table. */
  lemma LinesAre(headers: seq<string>, rows: seq<seq<string>>, i: nat)
    requires Width(headers, rows) > 0 && i < |rows| + 2
    ensures var line := Lines(headers, rows, Width(headers, rows))[i];
      '\n' !in line && ReadLine(line) == CleanTable(headers, rows)[i]
  {
    hide Line, ReadLine, EscapeAll, CleanAll, Padded;
    var width := Width(headers, rows);
    if i == 0 {
      PrintedLine(PaddedHeaders(headers, width));
    } else if i == 1 {
      SeparatorLine(width);
      PrintedLine(Separators(width));
    } else {
      PrintedLine(PaddedRows(rows, width)[i - 2]);
    }
  }

  /**
   For all headers and ragged rows with a cell at all: reading what was printed gives the padded
   table, each cell clean, and every line has as many cells as the widest.
   */
  lemma TableReadsBack(headers: seq<string>, rows: seq<seq<string>>)
    requires Width(headers, rows) > 0
    ensures ReadTable(TableToMarkdown(headers, rows)) == CleanTable(headers, rows)
  {
    hide Lines, ReadLine, CleanTable, Join;
    var lines := Lines(headers, rows, Width(headers, rows));
    LinesCount(headers, rows);
    forall i | 0 <= i < |lines| ensures '\n' !in lines[i] && ReadLine(lines[i]) == CleanTable(headers, rows)[i] {
      LinesAre(headers, rows, i);
    }
    SplitJoined(lines);
  }

  lemma LinesCount(headers: seq<string>, rows: seq<seq<string>>)
    ensures |Lines(headers, rows, Width(headers, rows))| == |rows| + 2
  {
  }

  lemma EscapedIsClean(row: seq<string>, other: seq<string>)
    requires CleanAll(row) == CleanAll(other)
    ensures EscapeAll(row) == EscapeAll(other)
  {
    hide Escape, Clean;
    assert |row| == |CleanAll(row)| == |other|;
    forall i | 0 <= i < |row| ensures Escape(row[i]) == Escape(other[i]) {
      EscapeIsClean(row[i]);
      EscapeIsClean(other[i]);
      assert CleanAll(row)[i] == CleanAll(other)[i];
    }
  }

  lemma SameTableSameLines(headers: seq<string>, rows: seq<seq<string>>, otherHeaders: seq<string>,
                           others: seq<seq<string>>)
    requires CleanTable(headers, rows) == CleanTable(otherHeaders, others)
    ensures Width(headers, rows) == Width(otherHeaders, others)
    ensures Lines(headers, rows, Width(headers, rows)) == Lines(otherHeaders, others, Width(otherHeaders, others))
  {
    hide CleanAll, EscapeAll, Line, Padded, Width;
    var width := Width(headers, rows);
    var table, other := CleanTable(headers, rows), CleanTable(otherHeaders, others);
    assert |table[0]| == |other[0]|;
    EscapedIsClean(PaddedHeaders(headers, width), PaddedHeaders(otherHeaders, width));
    assert |rows| == |others|;
    forall i | 0 <= i < |rows|
      ensures Line(EscapeAll(PaddedRows(rows, width)[i])) == Line(EscapeAll(PaddedRows(others, width)[i]))
    {
      assert table[i + 2] == other[i + 2];
      EscapedIsClean(PaddedRows(rows, width)[i], PaddedRows(others, width)[i]);
    }
  }

  /** Two tables with a cell at all print the same text exactly when their clean padded cells are the same. */
  lemma PrintIsUnambiguous(headers: seq<string>, rows: seq<seq<string>>, otherHeaders: seq<string>,
                           others: seq<seq<string>>)
    requires Width(headers, rows) > 0 && Width(otherHeaders, others) > 0
    ensures TableToMarkdown(headers, rows) == TableToMarkdown(otherHeaders, others) <==>
      CleanTable(headers, rows) == CleanTable(otherHeaders, others)
  {
    hide CleanTable, ReadTable, Lines, Join;
    TableReadsBack(headers, rows);
    TableReadsBack(otherHeaders, others);
    if CleanTable(headers, rows) == CleanTable(otherHeaders, others) {
      SameTableSameLines(headers, rows, otherHeaders, others);
    }
  }

  // ---------------------------------------------------------------- carriage returns

  /** The line endings of GitHub Flavored Markdown (section 2.1): newline, carriage return, and both in a row as one. */
  function LineEndings(text: string): nat {
    if text == "" then 0
    else if text[0] == '\n' then 1 + LineEndings(text[1..])
    else if text[0] == '\r' then 1 + LineEndings(if |text| >= 2 && text[1] == '\n' then text[2..] else text[1..])
    else LineEndings(text[1..])
  }

  lemma {:induction false} EndingsOfLine(text: string)
    requires '\n' !in text
    ensures LineEndings(text) == 0 <==> '\r' !in text
  {
    if text != "" {
      assert text == [text[0]] + text[1..];
      EndingsOfLine(text[1..]);
    }
  }

  /** A line that ends in a visible character, then a newline, then more. */
  lemma {:induction false} EndingsAdd(line: string, rest: string)
    requires '\n' !in line && line != "" && line[|line| - 1] != '\r'
    ensures LineEndings(line + "\n" + rest) == LineEndings(line) + 1 + LineEndings(rest)
  {
    var text := line + "\n" + rest;
    var tail := line[1..];
    assert text[1..] == tail + "\n" + rest;
    if tail == "" {
      assert text[1..] == "\n" + rest && ("\n" + rest)[1..] == rest;
    } else {
      EndingsAdd(tail, rest);
      assert text[1] == tail[0];
    }
  }

  function EndingsWithin(lines: seq<string>): nat {
    if lines == [] then 0 else LineEndings(lines[0]) + EndingsWithin(lines[1..])
  }

  lemma {:induction false} EndingsOfLines(lines: seq<string>)
    requires lines != []
    requires forall i | 0 <= i < |lines| :: '\n' !in lines[i] && lines[i] != "" && lines[i][|lines[i]| - 1] != '\r'
    ensures LineEndings(Join("\n", lines)) == |lines| - 1 + EndingsWithin(lines)
  {
    hide LineEndings;
    if |lines| > 1 {
      EndingsAdd(lines[0], Join("\n", lines[1..]));
      EndingsOfLines(lines[1..]);
    } else {
      assert lines[1..] == [];
    }
  }

  lemma {:induction false} NoEndingsWithin(lines: seq<string>)
    requires forall i | 0 <= i < |lines| :: '\n' !in lines[i]
    ensures EndingsWithin(lines) == 0 <==> forall i | 0 <= i < |lines| :: '\r' !in lines[i]
  {
    hide LineEndings;
    if lines != [] {
      NoEndingsWithin(lines[1..]);
      EndingsOfLine(lines[0]);
      assert lines == [lines[0]] + lines[1..];
    }
  }

  predicate NoReturn(row: seq<string>) {
    forall i | 0 <= i < |row| :: '\r' !in row[i]
  }

  lemma {:induction false} EscapeKeepsReturns(value: string)
    ensures '\r' in EscapePipes(value) <==> '\r' in value
  {
    if value != "" {
      EscapeKeepsReturns(value[1..]);
      assert value == [value[0]] + value[1..];
    }
  }

  lemma ReturnsOfLine(row: seq<string>)
    requires row != []
    ensures '\r' !in Line(EscapeAll(row)) <==> NoReturn(CleanAll(row))
    ensures Line(EscapeAll(row)) != "" && Line(EscapeAll(row))[|Line(EscapeAll(row))| - 1] == '|'
  {
    hide Escape, Clean, EscapePipes, Body, Join;
    PrintedLine(row);
    LineIsBody(EscapeAll(row));
    BodyChars(EscapeAll(row), '\r');
    assert '\r' in "|" + Body(EscapeAll(row)) <==> '\r' in Body(EscapeAll(row));
    forall i | 0 <= i < |row| ensures '\r' in EscapeAll(row)[i] <==> '\r' in CleanAll(row)[i] {
      EscapeKeepsReturns(Clean(row[i]));
    }
  }

  lemma ReturnsOfLines(headers: seq<string>, rows: seq<seq<string>>, i: nat)
    requires Width(headers, rows) > 0 && i < |rows| + 2
    ensures var line := Lines(headers, rows, Width(headers, rows))[i];
      && ('\r' !in line <==> NoReturn(CleanTable(headers, rows)[i]))
      && line != "" && line[|line| - 1] == '|'
  {
    hide Line, EscapeAll, CleanAll, Padded, NoReturn;
    var width := Width(headers, rows);
    if i == 0 {
      ReturnsOfLine(PaddedHeaders(headers, width));
    } else if i == 1 {
      SeparatorLine(width);
      ReturnsOfLine(Separators(width));
    } else {
      ReturnsOfLine(PaddedRows(rows, width)[i - 2]);
    }
  }

  /**
   A reader that also ends lines at carriage returns sees a line per row exactly when no clean cell
   holds one: the printer replaces newlines only.
   */
  lemma OneLinePerRowExactly(headers: seq<string>, rows: seq<seq<string>>)
    requires Width(headers, rows) > 0
    ensures LineEndings(TableToMarkdown(headers, rows)) == |rows| + 1 <==>
      forall i | 0 <= i < |rows| + 2 :: NoReturn(CleanTable(headers, rows)[i])
  {
    hide Lines, LineEndings, CleanTable, Join, NoReturn, EndingsWithin;
    var lines := Lines(headers, rows, Width(headers, rows));
    LinesCount(headers, rows);
    forall i | 0 <= i < |lines|
      ensures '\n' !in lines[i] && lines[i] != "" && lines[i][|lines[i]| - 1] != '\r'
      ensures '\r' !in lines[i] <==> NoReturn(CleanTable(headers, rows)[i])
    {
      LinesAre(headers, rows, i);
      ReturnsOfLines(headers, rows, i);
    }
    EndingsOfLines(lines);
    NoEndingsWithin(lines);
  }

  /** A header with a carriage return inside: its table of two lines is read as one of more. */
  lemma ReturnBreaksLine() returns (headers: seq<string>)
    ensures Width(headers, []) == 1 && LineEndings(TableToMarkdown(headers, [])) != 1
  {
    hide LineEndings, TableToMarkdown;
    headers := ["a\rb"];
    assert Widest([headers]) == 1 && [headers] + [] == [headers];
    OneLinePerRowExactly(headers, []);
    assert PaddedHeaders(headers, 1)[0] == "a\rb";
    ReturnIsClean();
    assert '\r' in CleanTable(headers, [])[0][0];
  }

  lemma ReturnIsClean()
    ensures Clean("a\rb") == "a\rb" && '\r' in "a\rb"
  {
    assert "a\rb"[1..] == "\rb" && "\rb"[1..] == "b" && "b"[1..] == "" && "a\rb"[1] == '\r';
    assert FlattenNewlines("b") == "b" && FlattenNewlines("\rb") == "\rb" && FlattenNewlines("a\rb") == "a\rb";
    StripFixed("a\rb");
  }
}
