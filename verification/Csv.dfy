/** The CSV printers of the student export and the reports, and a reader that undoes them. */
module Csv {
  import opened Wrappers

  predicate Special(c: char) { c == ',' || c == '"' || c == '\n' }

  predicate NeedsQuotes(value: string) { exists i | 0 <= i < |value| :: Special(value[i]) }

  function Doubled(value: string): string {
    if value == "" then ""
    else (if value[0] == '"' then "\"\"" else [value[0]]) + Doubled(value[1..])
  }

  function CsvEscape(value: string): string {
    if NeedsQuotes(value) then "\"" + Doubled(value) + "\"" else value
  }

  function Join(parts: seq<string>, separator: char): string {
    if parts == [] then ""
    else if |parts| == 1 then parts[0]
    else parts[0] + [separator] + Join(parts[1..], separator)
  }

  function Escaped(fields: seq<string>): seq<string> {
    seq(|fields|, i requires 0 <= i < |fields| => CsvEscape(fields[i]))
  }

  function PrintRecord(fields: seq<string>): string { Join(Escaped(fields), ',') }

  function Lines(records: seq<seq<string>>): seq<string> {
    seq(|records|, i requires 0 <= i < |records| => PrintRecord(records[i]))
  }

  function Print(records: seq<seq<string>>): string { Join(Lines(records), '\n') }

  // --- A reader after section 2 of RFC 4180: records end at LF, and CR is an ordinary character.

  datatype Read<T> = Got(value: T, rest: string) | Malformed

  predicate AtFieldEnd(s: string) { s == "" || s[0] == ',' || s[0] == '\n' }

  /** The rest of a quoted field, after its opening quote. */
  function ReadQuoted(s: string): (r: Read<string>)
    ensures r.Got? ==> |r.rest| < |s|
  {
    if s == "" then Malformed
    else if s[0] != '"' then
      (match ReadQuoted(s[1..]) case Got(v, rest) => Got([s[0]] + v, rest) case Malformed => Malformed)
    else if |s| > 1 && s[1] == '"' then
      (match ReadQuoted(s[2..]) case Got(v, rest) => Got("\"" + v, rest) case Malformed => Malformed)
    else Got("", s[1..])
  }

  function ReadPlain(s: string): (r: Read<string>)
    ensures r.Got? ==> |r.rest| <= |s|
  {
    if AtFieldEnd(s) then Got("", s)
    else if s[0] == '"' then Malformed
    else (match ReadPlain(s[1..]) case Got(v, rest) => Got([s[0]] + v, rest) case Malformed => Malformed)
  }

  function ReadField(s: string): (r: Read<string>)
    ensures r.Got? ==> |r.rest| <= |s| && AtFieldEnd(r.rest)
  {
    var r := if s != "" && s[0] == '"' then ReadQuoted(s[1..]) else ReadPlain(s);
    if r.Got? && AtFieldEnd(r.rest) then r else Malformed
  }

  function ReadRecord(s: string): (r: Read<seq<string>>)
    ensures r.Got? ==> |r.rest| <= |s| && (r.rest == "" || r.rest[0] == '\n')
    decreases |s|
  {
    match ReadField(s)
    case Malformed => Malformed
    case Got(field, rest) =>
      if rest != "" && rest[0] == ',' then
        (match ReadRecord(rest[1..])
         case Got(fields, after) => Got([field] + fields, after)
         case Malformed => Malformed)
      else Got([field], rest)
  }

  function ReadFile(s: string): Option<seq<seq<string>>>
    decreases |s|
  {
    match ReadRecord(s)
    case Malformed => None
    case Got(record, rest) =>
      if rest == "" then Some([record])
      else
        (match ReadFile(rest[1..])
         case Some(records) => Some([record] + records)
         case None => None)
  }

  // --- The reader undoes the printer.

  /** Reading a doubled quote or any other character, and going on. */
  lemma ReadOne(c: char, tail: string)
    ensures ReadQuoted((if c == '"' then "\"\"" else [c]) + tail)
            == match ReadQuoted(tail) case Got(v, rest) => Got([c] + v, rest) case Malformed => Malformed
  {
    if c == '"' {
      assert ("\"\"" + tail)[2..] == tail && "\"" == [c];
    } else {
      assert ([c] + tail)[1..] == tail;
    }
  }

  lemma {:induction false} QuotedRoundTrip(value: string, rest: string)
    requires AtFieldEnd(rest)
    ensures ReadQuoted(Doubled(value) + "\"" + rest) == Got(value, rest)
  {
    if value == "" {
      assert Doubled(value) + "\"" + rest == "\"" + rest && ("\"" + rest)[1..] == rest;
    } else {
      var tail := Doubled(value[1..]) + "\"" + rest;
      assert Doubled(value) + "\"" + rest == (if value[0] == '"' then "\"\"" else [value[0]]) + tail;
      assert value == [value[0]] + value[1..];
      hide ReadQuoted, Doubled;
      QuotedRoundTrip(value[1..], rest);
      ReadOne(value[0], tail);
    }
  }

  lemma {:induction false} PlainRoundTrip(value: string, rest: string)
    requires !NeedsQuotes(value) && AtFieldEnd(rest)
    ensures ReadPlain(value + rest) == Got(value, rest)
  {
    if value == "" {
      assert value + rest == rest;
    } else {
      assert (value + rest)[1..] == value[1..] + rest && (value + rest)[0] == value[0];
      PlainRoundTrip(value[1..], rest);
      assert value == [value[0]] + value[1..];
    }
  }

  /** A printed field, whatever its characters, is read back whole. */
  lemma FieldRoundTrip(value: string, rest: string)
    requires AtFieldEnd(rest)
    ensures ReadField(CsvEscape(value) + rest) == Got(value, rest)
  {
    if NeedsQuotes(value) {
      var tail := Doubled(value) + "\"" + rest;
      assert CsvEscape(value) + rest == "\"" + tail;
      assert ("\"" + tail)[1..] == tail;
      QuotedRoundTrip(value, rest);
    } else {
      PlainRoundTrip(value, rest);
      if value == "" {
        assert value + rest == rest;
      } else {
        assert (value + rest)[0] == value[0];
      }
    }
  }

  lemma {:induction false} RecordRoundTrip(fields: seq<string>, rest: string)
    requires fields != [] && (rest == "" || rest[0] == '\n')
    ensures ReadRecord(PrintRecord(fields) + rest) == Got(fields, rest)
  {
    hide CsvEscape, ReadField;
    if |fields| == 1 {
      FieldRoundTrip(fields[0], rest);
      assert PrintRecord(fields) == CsvEscape(fields[0]);
      assert fields == [fields[0]];
    } else {
      var tail := "," + (PrintRecord(fields[1..]) + rest);
      assert Escaped(fields)[1..] == Escaped(fields[1..]);
      assert PrintRecord(fields) + rest == CsvEscape(fields[0]) + tail;
      FieldRoundTrip(fields[0], tail);
      RecordRoundTrip(fields[1..], rest);
      assert tail[1..] == PrintRecord(fields[1..]) + rest;
      assert fields == [fields[0]] + fields[1..];
    }
  }

  lemma {:induction false} FileRoundTrip(records: seq<seq<string>>)
    requires records != [] && forall r | r in records :: r != []
    ensures ReadFile(Print(records)) == Some(records)
  {
    hide PrintRecord, ReadRecord;
    assert records[0] in records;
    if |records| == 1 {
      RecordRoundTrip(records[0], "");
      assert Print(records) == PrintRecord(records[0]) && Print(records) + "" == Print(records);
      assert records == [records[0]];
    } else {
      var tail := "\n" + Print(records[1..]);
      assert Lines(records)[1..] == Lines(records[1..]);
      assert Print(records) == PrintRecord(records[0]) + tail;
      RecordRoundTrip(records[0], tail);
      assert forall r | r in records[1..] :: r in records;
      FileRoundTrip(records[1..]);
      assert tail[1..] == Print(records[1..]);
      assert records == [records[0]] + records[1..];
    }
  }

  /** A record with no fields prints like a record with one empty field, and so does a file with no records. */
  function Shown(record: seq<string>): seq<string> { if record == [] then [""] else record }

  function AllShown(records: seq<seq<string>>): seq<seq<string>> {
    if records == [] then [[""]] else seq(|records|, i requires 0 <= i < |records| => Shown(records[i]))
  }

  /** Any table reads back as what its printing can show, which is the table itself exactly when nothing in it is empty. */
  lemma AnyFileRoundTrip(records: seq<seq<string>>)
    ensures ReadFile(Print(records)) == Some(AllShown(records))
    ensures ReadFile(Print(records)) == Some(records) <==> records != [] && forall r | r in records :: r != []
  {
    var shown := AllShown(records);
    assert Escaped([""]) == [""] && Escaped([]) == [];
    if records == [] {
      assert Lines(shown) == [""] && Lines(records) == [];
    } else {
      assert Lines(shown) == Lines(records);
    }
    hide CsvEscape, ReadFile, Join;
    FileRoundTrip(shown);
    if shown == records {
      forall r | r in records
        ensures r != []
      {
        var i :| 0 <= i < |records| && records[i] == r;
        assert shown[i] == Shown(records[i]);
      }
    } else if records != [] {
      var i :| 0 <= i < |records| && shown[i] != records[i];
      assert records[i] in records && records[i] == [];
    }
  }

  /** Different tables without empty records never print alike. */
  lemma PrintIsInjective(a: seq<seq<string>>, b: seq<seq<string>>)
    requires a != [] && b != [] && (forall r | r in a :: r != []) && (forall r | r in b :: r != [])
    ensures Print(a) == Print(b) ==> a == b
  {
    FileRoundTrip(a);
    FileRoundTrip(b);
  }

  // --- The student export.

  datatype Student = Student(
    admissionNumber: string, name: string, classId: string, sectionId: string,
    status: string, dob: string, gender: string)

  const HEADER := ["Admission Number", "Name", "Class", "Section", "Status", "Date of Birth", "Gender"]

  function NameOf(names: map<string, string>, id: string, unknown: string): string {
    if id in names then names[id] else unknown
  }

  function StudentRow(s: Student, classNames: map<string, string>, sectionNames: map<string, string>): seq<string> {
    [s.admissionNumber, s.name, NameOf(classNames, s.classId, "Unknown class"),
     NameOf(sectionNames, s.sectionId, "Unknown section"), s.status, s.dob, s.gender]
  }

  function StudentRows(items: seq<Student>, classNames: map<string, string>, sectionNames: map<string, string>): seq<seq<string>> {
    seq(|items|, i requires 0 <= i < |items| => StudentRow(items[i], classNames, sectionNames))
  }

  function ExportCsv(items: seq<Student>, classNames: map<string, string>, sectionNames: map<string, string>): string {
    var rows := StudentRows(items, classNames, sectionNames);
    Join([Join(Escaped(HEADER), ',')] + Lines(rows), '\n')
  }

  /** Reading an exported file gives the header and exactly the rows exported, whatever the fields hold. */
  lemma ExportRoundTrip(items: seq<Student>, classNames: map<string, string>, sectionNames: map<string, string>)
    ensures ReadFile(ExportCsv(items, classNames, sectionNames))
            == Some([HEADER] + StudentRows(items, classNames, sectionNames))
  {
    hide CsvEscape, ReadFile, Escaped, Join;
    var records := [HEADER] + StudentRows(items, classNames, sectionNames);
    assert Lines(records) == [Join(Escaped(HEADER), ',')] + Lines(StudentRows(items, classNames, sectionNames));
    assert |HEADER| == 7;
    FileRoundTrip(records);
  }

  /** The first record read is the header and each later one a student's seven columns, unknown classes and sections named so. */
  lemma ExportColumns(items: seq<Student>, classNames: map<string, string>, sectionNames: map<string, string>, i: nat)
    requires i < |items|
    ensures var read := ReadFile(ExportCsv(items, classNames, sectionNames));
            && read.Some? && |read.value| == |items| + 1
            && read.value[0] == ["Admission Number", "Name", "Class", "Section", "Status", "Date of Birth", "Gender"]
            && var row := read.value[i + 1];
               && |row| == 7 && row[0] == items[i].admissionNumber && row[1] == items[i].name
               && row[2] == (if items[i].classId in classNames then classNames[items[i].classId] else "Unknown class")
               && row[3] == (if items[i].sectionId in sectionNames then sectionNames[items[i].sectionId] else "Unknown section")
               && row[4] == items[i].status && row[5] == items[i].dob && row[6] == items[i].gender
  {
    ExportRoundTrip(items, classNames, sectionNames);
    hide ReadFile, ExportCsv;
  }

  // --- The report export.

  datatype ReportTable = ReportTable(title: string, columns: seq<string>, rows: seq<seq<string>>)

  datatype SummaryLine = SummaryLine(caption: string, value: string)

  datatype ReportModel = ReportModel(title: string, subtitle: string, summary: seq<SummaryLine>, tables: seq<ReportTable>)

  /** Cells a spreadsheet would take for formulas get a leading apostrophe. */
  function SanitizeSpreadsheetCell(value: string): string {
    if value != "" && value[0] in ['=', '+', '-', '@'] then "'" + value else value
  }

  function Sanitized(row: seq<string>): seq<string> {
    seq(|row|, i requires 0 <= i < |row| => SanitizeSpreadsheetCell(row[i]))
  }

  function SanitizedRows(rows: seq<seq<string>>): seq<seq<string>> {
    seq(|rows|, i requires 0 <= i < |rows| => Sanitized(rows[i]))
  }

  function SummaryRecords(summary: seq<SummaryLine>): seq<seq<string>> {
    seq(|summary|, i requires 0 <= i < |summary| => [summary[i].caption, summary[i].value])
  }

  function TableRecords(table: ReportTable): seq<seq<string>> {
    [[table.title], table.columns] + SanitizedRows(table.rows) + [[""]]
  }

  function TablesRecords(tables: seq<ReportTable>): seq<seq<string>> {
    if tables == [] then [] else TablesRecords(tables[..|tables| - 1]) + TableRecords(tables[|tables| - 1])
  }

  function HeadRecords(model: ReportModel): seq<seq<string>> {
    [[model.title, model.subtitle], [""]]
    + if model.summary == [] then [] else [["Summary"]] + SummaryRecords(model.summary) + [[""]]
  }

  /** The report as records: title, summary and tables, with blank records between. */
  function ReportRecords(model: ReportModel): seq<seq<string>> { HeadRecords(model) + TablesRecords(model.tables) }

  /** How many records come before table `k`: the title and a blank, a summary if there is one, and the tables before it. */
  function RecordsBefore(model: ReportModel, k: nat): nat
    requires k <= |model.tables|
  {
    if k == 0 then 2 + if model.summary == [] then 0 else |model.summary| + 2
    else RecordsBefore(model, k - 1) + |model.tables[k - 1].rows| + 3
  }

  lemma {:induction false} TablesPrefix(tables: seq<ReportTable>, k: nat)
    requires k < |tables|
    ensures TablesRecords(tables[..k]) + TableRecords(tables[k]) <= TablesRecords(tables)
  {
    hide TableRecords;
    var n := |tables| - 1;
    if k < n {
      TablesPrefix(tables[..n], k);
      assert tables[..n][..k] == tables[..k];
    }
  }

  lemma {:induction false} PrefixLength(model: ReportModel, k: nat)
    requires k <= |model.tables|
    ensures |HeadRecords(model) + TablesRecords(model.tables[..k])| == RecordsBefore(model, k)
  {
    if k > 0 {
      PrefixLength(model, k - 1);
      assert model.tables[..k][..k - 1] == model.tables[..k - 1];
    }
  }

  lemma HeadShows(model: ReportModel, i: nat)
    ensures var records := ReportRecords(model);
            && |records| >= 2 && records[0] == [model.title, model.subtitle] && records[1] == [""]
            && (i < |model.summary| ==>
                  && |records| > |model.summary| + 3 && records[2] == ["Summary"]
                  && records[3 + i] == [model.summary[i].caption, model.summary[i].value]
                  && records[3 + |model.summary|] == [""])
  {
    hide TablesRecords;
  }

  lemma MiddlePart<T>(a: seq<T>, b: seq<T>, c: seq<T>, whole: seq<T>, j: nat)
    requires b + c <= whole && j < |c|
    ensures |a + whole| >= |a + b| + |c| && (a + whole)[|a + b| + j] == c[j]
  {
    assert (a + whole)[|a + b| + j] == whole[|b| + j] == (b + c)[|b| + j];
  }

  lemma TablePart(model: ReportModel, k: nat, j: nat)
    requires k < |model.tables| && j < |TableRecords(model.tables[k])|
    ensures |ReportRecords(model)| >= RecordsBefore(model, k) + |TableRecords(model.tables[k])|
    ensures ReportRecords(model)[RecordsBefore(model, k) + j] == TableRecords(model.tables[k])[j]
  {
    hide HeadRecords, TablesRecords, TableRecords, RecordsBefore;
    PrefixLength(model, k);
    TablesPrefix(model.tables, k);
    MiddlePart(HeadRecords(model), TablesRecords(model.tables[..k]), TableRecords(model.tables[k]), TablesRecords(model.tables), j);
  }

  lemma PartsOfTable(table: ReportTable, i: nat)
    ensures var n, shown := |table.rows|, TableRecords(table);
            && |shown| == n + 3 && shown[0] == [table.title] && shown[1] == table.columns && shown[2 + n] == [""]
            && (i < n ==> shown[2 + i] == Sanitized(table.rows[i]))
  {
    hide Sanitized;
  }

  /** Each table shows its title, its columns, its rows with sanitised cells, and a blank record, where the ones before it end. */
  lemma TableShows(model: ReportModel, k: nat, i: nat)
    requires k < |model.tables|
    ensures var table := model.tables[k];
            var records, o, n := ReportRecords(model), RecordsBefore(model, k), |model.tables[k].rows|;
            && |records| >= o + n + 3
            && records[o] == [table.title] && records[o + 1] == table.columns && records[o + 2 + n] == [""]
            && (i < n ==> records[o + 2 + i] == Sanitized(table.rows[i]))
  {
    hide *;
    var n := |model.tables[k].rows|;
    PartsOfTable(model.tables[k], i);
    TablePart(model, k, 0);
    TablePart(model, k, 1);
    TablePart(model, k, 2 + n);
    if i < n { TablePart(model, k, 2 + i); }
  }

  lemma LinesAppend(a: seq<seq<string>>, b: seq<seq<string>>)
    ensures Lines(a + b) == Lines(a) + Lines(b)
  {
  }

  lemma OneLine(record: seq<string>)
    ensures Lines([record]) == [PrintRecord(record)]
    ensures |record| == 1 ==> PrintRecord(record) == CsvEscape(record[0])
    ensures PrintRecord([""]) == ""
  {
    assert Escaped([""]) == [""];
  }

  method AppendTable(lines: seq<string>, table: ReportTable) returns (r: seq<string>)
    ensures r == lines + Lines(TableRecords(table))
  {
    hide PrintRecord, CsvEscape;
    r := lines + [CsvEscape(table.title)];
    r := r + [PrintRecord(table.columns)];
    OneLine([table.title]);
    OneLine(table.columns);
    OneLine([""]);
    ghost var head := [[table.title], table.columns];
    LinesAppend([[table.title]], [table.columns]);
    for i := 0 to |table.rows|
      invariant r == lines + Lines(head + SanitizedRows(table.rows[..i]))
    {
      r := r + [PrintRecord(Sanitized(table.rows[i]))];
      OneLine(Sanitized(table.rows[i]));
      LinesAppend(head + SanitizedRows(table.rows[..i]), [Sanitized(table.rows[i])]);
      assert SanitizedRows(table.rows[..i + 1]) == SanitizedRows(table.rows[..i]) + [Sanitized(table.rows[i])];
      assert head + SanitizedRows(table.rows[..i + 1]) == head + SanitizedRows(table.rows[..i]) + [Sanitized(table.rows[i])];
    }
    assert table.rows[..|table.rows|] == table.rows;
    r := r + [""];
    LinesAppend(head + SanitizedRows(table.rows), [[""]]);
  }

  method AppendSummary(lines: seq<string>, summary: seq<SummaryLine>) returns (r: seq<string>)
    ensures r == lines + Lines([["Summary"]] + SummaryRecords(summary) + [[""]])
  {
    assert CsvEscape("Summary") == "Summary";
    hide PrintRecord, CsvEscape;
    r := lines + ["Summary"];
    OneLine(["Summary"]);
    OneLine([""]);
    assert SummaryRecords(summary[..0]) == [];
    assert [["Summary"]] + [] == [["Summary"]];
    for i := 0 to |summary|
      invariant r == lines + Lines([["Summary"]] + SummaryRecords(summary[..i]))
    {
      var record := [summary[i].caption, summary[i].value];
      r := r + [PrintRecord(record)];
      OneLine(record);
      LinesAppend([["Summary"]] + SummaryRecords(summary[..i]), [record]);
      assert [["Summary"]] + SummaryRecords(summary[..i + 1]) == [["Summary"]] + SummaryRecords(summary[..i]) + [record];
    }
    assert summary[..|summary|] == summary;
    r := r + [""];
    LinesAppend([["Summary"]] + SummaryRecords(summary), [[""]]);
  }

  /** The printed report reads back as its records, with every table cell sanitised. */
  method RenderReportCsv(model: ReportModel) returns (csv: string)
    ensures ReadFile(csv) == Some(AllShown(ReportRecords(model)))
  {
    hide PrintRecord, CsvEscape, ReadFile, TableRecords, Join;
    var title := [model.title, model.subtitle];
    var lines := [PrintRecord(title)];
    lines := lines + [""];
    OneLine(title);
    OneLine([""]);
    LinesAppend([title], [[""]]);
    assert lines == Lines([title, [""]]);
    if |model.summary| > 0 {
      lines := AppendSummary(lines, model.summary);
      LinesAppend([title, [""]], [["Summary"]] + SummaryRecords(model.summary) + [[""]]);
    }
    ghost var head := HeadRecords(model);
    assert lines == Lines(head + TablesRecords([]));
    for i := 0 to |model.tables|
      invariant lines == Lines(head + TablesRecords(model.tables[..i]))
    {
      LinesAppend(head + TablesRecords(model.tables[..i]), TableRecords(model.tables[i]));
      lines := AppendTable(lines, model.tables[i]);
      assert model.tables[..i + 1][..i] == model.tables[..i];
      assert head + TablesRecords(model.tables[..i + 1])
          == head + TablesRecords(model.tables[..i]) + TableRecords(model.tables[i]);
    }
    assert model.tables[..|model.tables|] == model.tables;
    csv := Join(lines, '\n');
    AnyFileRoundTrip(ReportRecords(model));
  }

  /** No sanitised cell starts like a formula, and cells that did not are unchanged. */
  lemma SanitizedIsInert(value: string)
    ensures var r := SanitizeSpreadsheetCell(value);
            && (r == "" || r[0] !in ['=', '+', '-', '@'])
            && (r == value <==> value == "" || value[0] !in ['=', '+', '-', '@'])
            && (r == value || r == "'" + value)
  {
    if value != "" && value[0] in ['=', '+', '-', '@'] { assert |SanitizeSpreadsheetCell(value)| == |value| + 1; }
  }

  /** A record with no fields comes back with one. */
  lemma EmptyRecordExample()
    ensures Print([[]]) == Print([[""]]) == "" && ReadFile("") == Some([[""]])
  {
    assert Escaped([""]) == [""] && Escaped([]) == [];
    assert Lines([[]]) == [""] && Lines([[""]]) == [""];
  }
}
