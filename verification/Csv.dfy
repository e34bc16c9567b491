/** CSV export, read back by the grammar of section 2 of RFC 4180 with a line feed as the
    record break. */
module Csv {
  import opened Wrappers

  // ----- Printing -----

  predicate NeedsQuotes(s: string) {
    exists i :: 0 <= i < |s| && s[i] in {'"', ',', '\n', '\r'}
  }

  function Doubled(s: string): string {
    if s == "" then "" else (if s[0] == '"' then "\"\"" else [s[0]]) + Doubled(s[1..])
  }

  function Escape(s: string): string {
    if NeedsQuotes(s) then "\"" + Doubled(s) + "\"" else s
  }

  // A missing value prints as nothing.
  function CsvCell(c: Option<string>): string {
    if c.None? then "" else Escape(c.value)
  }

  function Join(parts: seq<string>, sep: char): string {
    if parts == [] then ""
    else if |parts| == 1 then parts[0]
    else parts[0] + [sep] + Join(parts[1..], sep)
  }

  function Cells(row: seq<Option<string>>): seq<string> {
    seq(|row|, i requires 0 <= i < |row| => CsvCell(row[i]))
  }

  function CsvRow(row: seq<Option<string>>): string {
    Join(Cells(row), ',')
  }

  function Lines(rows: seq<seq<Option<string>>>): seq<string> {
    seq(|rows|, i requires 0 <= i < |rows| => CsvRow(rows[i]))
  }

  function ToCsv(rows: seq<seq<Option<string>>>): string {
    Join(Lines(rows), '\n')
  }

  // A cell is printed as it is exactly if it holds no quote, comma or line break; any other stands in quotes.
  lemma {:induction false} PrintedAsIsExactly(s: string)
    ensures CsvCell(Some(s)) == s <==> !('"' in s || ',' in s || '\n' in s || '\r' in s)
    ensures CsvCell(Some(s)) != s ==> CsvCell(Some(s)) == "\"" + Doubled(s) + "\""
    ensures CsvCell(None) == ""
  {
    DoubledIsNotShorter(s);
    assert |Escape(s)| >= |s|;
  }

  lemma {:induction false} DoubledIsNotShorter(s: string)
    ensures |Doubled(s)| >= |s|
  {
    if s != "" {
      DoubledIsNotShorter(s[1..]);
    }
  }

  // ----- Reading -----

  predicate AtBreak(s: string) {
    s == "" || s[0] == ',' || s[0] == '\n'
  }

  // A field up to the next comma, line break or end; quotes and carriage returns may not stand in it.
  function ReadPlain(s: string): (r: Option<(string, string)>)
    ensures r.Some? ==> |r.value.1| <= |s| && AtBreak(r.value.1)
  {
    if AtBreak(s) then Some(("", s))
    else if s[0] == '"' || s[0] == '\r' then None
    else
      var rest := ReadPlain(s[1..]);
      if rest.None? then None else Some(([s[0]] + rest.value.0, rest.value.1))
  }

  // The inside of a quoted field and what follows its closing quote.
  function ReadQuoted(s: string): (r: Option<(string, string)>)
    ensures r.Some? ==> |r.value.1| <= |s| && AtBreak(r.value.1)
  {
    if s == "" then None
    else if s[0] == '"' && !(|s| > 1 && s[1] == '"') then
      if AtBreak(s[1..]) then Some(("", s[1..])) else None
    else
      var rest := ReadQuoted(if s[0] == '"' then s[2..] else s[1..]);
      if rest.None? then None else Some(([s[0]] + rest.value.0, rest.value.1))
  }

  function ReadField(s: string): (r: Option<(string, string)>)
    ensures r.Some? ==> |r.value.1| <= |s| && AtBreak(r.value.1)
  {
    if s != "" && s[0] == '"' then ReadQuoted(s[1..]) else ReadPlain(s)
  }

  function ReadRow(s: string): (r: Option<(seq<string>, string)>)
    ensures r.Some? ==> r.value.0 != [] && |r.value.1| <= |s| && (r.value.1 == "" || r.value.1[0] == '\n')
    decreases |s|
  {
    var f := ReadField(s);
    if f.None? then None
    else if f.value.1 == "" || f.value.1[0] == '\n' then Some(([f.value.0], f.value.1))
    else
      var rest := ReadRow(f.value.1[1..]);
      if rest.None? then None else Some(([f.value.0] + rest.value.0, rest.value.1))
  }

  // Records separated by line breaks; the last one has none.
  function Read(s: string): (r: Option<seq<seq<string>>>)
    ensures r.Some? ==> r.value != [] && forall i :: 0 <= i < |r.value| ==> r.value[i] != []
    decreases |s|
  {
    var row := ReadRow(s);
    if row.None? then None
    else if row.value.1 == "" then Some([row.value.0])
    else
      var rest := Read(row.value.1[1..]);
      if rest.None? then None else Some([row.value.0] + rest.value)
  }

  // ----- Round trip -----

  lemma {:induction false} PlainReadsBack(s: string, rest: string)
    requires !NeedsQuotes(s) && AtBreak(rest)
    ensures ReadPlain(s + rest) == Some((s, rest))
  {
    if s == "" {
      assert s + rest == rest;
    } else {
      assert s[0] !in {'"', ',', '\n', '\r'};
      assert forall i :: 0 <= i < |s[1..]| ==> s[1..][i] == s[i + 1];
      PlainReadsBack(s[1..], rest);
      assert (s + rest)[1..] == s[1..] + rest;
      assert [s[0]] + s[1..] == s;
    }
  }

  lemma {:induction false} QuotedReadsBack(s: string, rest: string)
    requires AtBreak(rest)
    ensures ReadQuoted(Doubled(s) + "\"" + rest) == Some((s, rest))
  {
    var text := Doubled(s) + "\"" + rest;
    if s == "" {
      assert text == "\"" + rest && text[1..] == rest;
    } else {
      QuotedReadsBack(s[1..], rest);
      var tail := Doubled(s[1..]) + "\"" + rest;
      assert text == (if s[0] == '"' then "\"\"" else [s[0]]) + tail;
      assert text[if s[0] == '"' then 2 else 1..] == tail;
      assert [s[0]] + s[1..] == s;
    }
  }

  lemma QuotedText(inner: string, rest: string)
    ensures var text := "\"" + inner + "\"" + rest; text[0] == '"' && text[1..] == inner + "\"" + rest
  {
  }

  // A printed field followed by a break is read back as it was, and reading stops at the break.
  lemma FieldReadsBack(s: string, rest: string)
    requires AtBreak(rest)
    ensures ReadField(Escape(s) + rest) == Some((s, rest))
  {
    if NeedsQuotes(s) {
      QuotedText(Doubled(s), rest);
      QuotedReadsBack(s, rest);
    } else {
      NoQuoteAhead(s, rest);
      PlainReadsBack(s, rest);
    }
  }

  lemma NoQuoteAhead(s: string, rest: string)
    requires !NeedsQuotes(s) && AtBreak(rest)
    ensures s + rest == "" || (s + rest)[0] != '"'
  {
    if s == "" {
      assert s + rest == rest;
    }
  }

  function Text(c: Option<string>): string { c.GetOr("") }

  function TextRow(row: seq<Option<string>>): seq<string> {
    seq(|row|, i requires 0 <= i < |row| => Text(row[i]))
  }

  function TextTable(rows: seq<seq<Option<string>>>): seq<seq<string>> {
    seq(|rows|, i requires 0 <= i < |rows| => TextRow(rows[i]))
  }

  lemma JoinSplits(parts: seq<string>, sep: char, rest: string)
    requires |parts| > 1
    ensures Join(parts, sep) + rest == parts[0] + ([sep] + (Join(parts[1..], sep) + rest))
  {
  }

  lemma RowSplits(row: seq<Option<string>>, rest: string)
    requires |row| > 1
    ensures CsvRow(row) + rest == CsvCell(row[0]) + ("," + (CsvRow(row[1..]) + rest))
  {
    JoinSplits(Cells(row), ',', rest);
    assert Cells(row)[1..] == Cells(row[1..]);
  }

  lemma TextRowSplits(row: seq<Option<string>>)
    requires |row| > 1
    ensures TextRow(row) == [Text(row[0])] + TextRow(row[1..])
  {
  }

  lemma CellReadsBack(c: Option<string>, rest: string)
    requires AtBreak(rest)
    ensures ReadField(CsvCell(c) + rest) == Some((Text(c), rest))
  {
    FieldReadsBack(Text(c), rest);
    assert !NeedsQuotes("");
  }

  lemma RowGoesOn(s: string, text: string, more: string, row: seq<string>, rest: string)
    requires ReadField(s) == Some((text, "," + more)) && ReadRow(more) == Some((row, rest))
    ensures ReadRow(s) == Some(([text] + row, rest))
  {
    assert ("," + more)[1..] == more;
  }

  lemma LastCellReadsBack(row: seq<Option<string>>, rest: string)
    requires |row| == 1 && (rest == "" || rest[0] == '\n')
    ensures ReadRow(CsvRow(row) + rest) == Some((TextRow(row), rest))
  {
    CellReadsBack(row[0], rest);
    assert CsvRow(row) == CsvCell(row[0]) && TextRow(row) == [Text(row[0])];
  }

  lemma {:induction false} RowReadsBack(row: seq<Option<string>>, rest: string)
    requires row != [] && (rest == "" || rest[0] == '\n')
    ensures ReadRow(CsvRow(row) + rest) == Some((TextRow(row), rest))
  {
    if |row| == 1 {
      LastCellReadsBack(row, rest);
    } else {
      var more := CsvRow(row[1..]) + rest;
      RowReadsBack(row[1..], rest);
      CellReadsBack(row[0], "," + more);
      RowSplits(row, rest);
      TextRowSplits(row);
      RowGoesOn(CsvCell(row[0]) + ("," + more), Text(row[0]), more, TextRow(row[1..]), rest);
    }
  }

  lemma TableSplits(rows: seq<seq<Option<string>>>)
    requires |rows| > 1
    ensures ToCsv(rows) == CsvRow(rows[0]) + ("\n" + ToCsv(rows[1..]))
    ensures TextTable(rows) == [TextRow(rows[0])] + TextTable(rows[1..])
  {
    JoinSplits(Lines(rows), '\n', "");
    assert Lines(rows)[1..] == Lines(rows[1..]);
    assert ToCsv(rows[1..]) + "" == ToCsv(rows[1..]) && ToCsv(rows) + "" == ToCsv(rows);
  }

  lemma TableGoesOn(s: string, row: seq<string>, more: string, table: seq<seq<string>>)
    requires ReadRow(s) == Some((row, "\n" + more)) && Read(more) == Some(table)
    ensures Read(s) == Some([row] + table)
  {
    assert ("\n" + more)[1..] == more;
  }

  lemma {:induction false} TableReadsBack(rows: seq<seq<Option<string>>>)
    requires rows != [] && forall i :: 0 <= i < |rows| ==> rows[i] != []
    ensures Read(ToCsv(rows)) == Some(TextTable(rows))
  {
    if |rows| == 1 {
      RowReadsBack(rows[0], "");
      assert ToCsv(rows) == CsvRow(rows[0]) + "";
      assert TextTable(rows) == [TextRow(rows[0])];
    } else {
      var more := ToCsv(rows[1..]);
      TableReadsBack(rows[1..]);
      RowReadsBack(rows[0], "\n" + more);
      TableSplits(rows);
      TableGoesOn(CsvRow(rows[0]) + ("\n" + more), TextRow(rows[0]), more, TextTable(rows[1..]));
    }
  }

  // Printing and reading back gives the table, missing values as empty text, if and only if the table
  // and all its rows are non-empty.
  lemma RoundTripExactly(rows: seq<seq<Option<string>>>)
    ensures Read(ToCsv(rows)) == Some(TextTable(rows)) <==>
            rows != [] && forall i :: 0 <= i < |rows| ==> rows[i] != []
  {
    if rows != [] && forall i :: 0 <= i < |rows| ==> rows[i] != [] {
      TableReadsBack(rows);
    } else if rows != [] {
      var i :| 0 <= i < |rows| && rows[i] == [];
      assert TextTable(rows)[i] == [];
    } else {
      assert |TextTable(rows)| == 0;
    }
  }

  // So no two tables of text print alike; a missing value and an empty text do.
  lemma PrintingIsInjective(a: seq<seq<Option<string>>>, b: seq<seq<Option<string>>>)
    requires a != [] && forall i :: 0 <= i < |a| ==> a[i] != []
    requires b != [] && forall i :: 0 <= i < |b| ==> b[i] != []
    ensures ToCsv(a) == ToCsv(b) <==> TextTable(a) == TextTable(b)
  {
    TableReadsBack(a);
    TableReadsBack(b);
    if TextTable(a) == TextTable(b) {
      SameTextPrintsAlike(a, b);
    }
  }

  lemma SameTextPrintsAlike(a: seq<seq<Option<string>>>, b: seq<seq<Option<string>>>)
    requires TextTable(a) == TextTable(b)
    ensures ToCsv(a) == ToCsv(b)
  {
    assert |a| == |TextTable(a)| == |TextTable(b)| == |b|;
    forall i | 0 <= i < |a|
      ensures CsvRow(a[i]) == CsvRow(b[i])
    {
      assert TextRow(a[i]) == TextTable(a)[i] == TextTable(b)[i] == TextRow(b[i]);
      SameTextRowPrintsAlike(a[i], b[i]);
    }
    assert Lines(a) == Lines(b);
  }

  lemma SameTextRowPrintsAlike(a: seq<Option<string>>, b: seq<Option<string>>)
    requires TextRow(a) == TextRow(b)
    ensures CsvRow(a) == CsvRow(b)
  {
    assert |a| == |TextRow(a)| == |TextRow(b)| == |b|;
    forall k | 0 <= k < |a|
      ensures CsvCell(a[k]) == CsvCell(b[k])
    {
      assert Text(a[k]) == TextRow(a)[k] == TextRow(b)[k] == Text(b[k]);
      assert !NeedsQuotes("");
    }
    assert Cells(a) == Cells(b);
  }

  // ----- Readers that allow a break after the last record -----

  function ReadTrailing(s: string): Option<seq<seq<string>>> {
    if s != "" && s[|s| - 1] == '\n' then
      // a break inside a quoted last field does not count
      var whole := Read(s);
      if whole.Some? && |whole.value| > 1 && whole.value[|whole.value| - 1] == [""]
      then Some(whole.value[..|whole.value| - 1]) else whole
    else Read(s)
  }

  lemma {:induction false} LastRowBlankExactly(rows: seq<seq<Option<string>>>)
    requires |rows| > 1 && forall i :: 0 <= i < |rows| ==> rows[i] != []
    ensures TextRow(rows[|rows| - 1]) == [""] ==> ToCsv(rows) != "" && ToCsv(rows)[|ToCsv(rows)| - 1] == '\n'
  {
    TableSplits(rows);
    if |rows| == 2 {
      assert ToCsv(rows[1..]) == CsvRow(rows[1]);
      if TextRow(rows[1]) == [""] {
        assert |rows[1]| == |TextRow(rows[1])| == 1 && Text(rows[1][0]) == TextRow(rows[1])[0] == "";
        assert !NeedsQuotes("") && CsvRow(rows[1]) == CsvCell(rows[1][0]) == "";
      }
    } else {
      LastRowBlankExactly(rows[1..]);
    }
  }

  // A reader that takes a final break as the end of the last record, as RFC 4180 allows, returns the same
  // table if and only if the table does not end, after other rows, in a row of one blank cell.
  lemma TrailingBreakExactly(rows: seq<seq<Option<string>>>)
    requires rows != [] && forall i :: 0 <= i < |rows| ==> rows[i] != []
    ensures ReadTrailing(ToCsv(rows)) == Some(TextTable(rows)) <==>
            !(|rows| > 1 && TextRow(rows[|rows| - 1]) == [""])
  {
    TableReadsBack(rows);
    assert TextTable(rows)[|rows| - 1] == TextRow(rows[|rows| - 1]);
    if |rows| > 1 {
      LastRowBlankExactly(rows);
    }
  }
}
