/**
 * `exportToCSV`: the header line, the rows and the field escaping of the exported CSV text, and
 * a reader for that text (as section 2 of RFC 4180 describes it) that recovers what was written.
 */
module Csv {
  import opened Wrappers

  /** `{ key, label }`: which member of each item a column shows, and its heading. */
  datatype Column = Column(key: string, heading: string)

  /**
   * An exported object: a member that is missing, `null` or `undefined` is absent; the others
   * are given already converted by `String(value)`.
   */
  type Item = map<string, Option<string>>

  const Bom: char := '\U{FEFF}'

  /** `parts.join(sep)`. */
  function Join(parts: seq<string>, sep: string): string {
    if parts == [] then ""
    else if |parts| == 1 then parts[0]
    else parts[0] + sep + Join(parts[1..], sep)
  }

  /** One of the characters that force a field into quotes. */
  predicate Special(c: char) {
    c == ',' || c == '"' || c == '\n'
  }

  /** `s.includes(',') || s.includes('"') || s.includes('\n')`. */
  predicate NeedsQuotes(s: string) {
    exists i :: 0 <= i < |s| && Special(s[i])
  }

  /** `s.replace(/"/g, '""')`. */
  function DoubleQuotes(s: string): (r: string)
    ensures |r| >= |s|
  {
    if s == [] then []
    else if s[0] == '"' then "\"\"" + DoubleQuotes(s[1..])
    else [s[0]] + DoubleQuotes(s[1..])
  }

  /** The field written for a value. */
  function Escape(s: string): string {
    if NeedsQuotes(s) then "\"" + DoubleQuotes(s) + "\"" else s
  }

  /** The field of `item` under column `col`. */
  function Cell(item: Item, col: Column): string {
    if col.key in item && item[col.key].Some? then Escape(item[col.key].value) else ""
  }

  /** The value a reader should find in that field. */
  function Value(item: Item, col: Column): string {
    if col.key in item && item[col.key].Some? then item[col.key].value else ""
  }

  function Headings(columns: seq<Column>): seq<string> {
    seq(|columns|, i requires 0 <= i < |columns| => columns[i].heading)
  }

  /** `columns.map(col => col.label).join(',')`: the headings are written unescaped. */
  function HeaderLine(columns: seq<Column>): string {
    Join(Headings(columns), ",")
  }

  function Cells(item: Item, columns: seq<Column>): seq<string> {
    seq(|columns|, i requires 0 <= i < |columns| => Cell(item, columns[i]))
  }

  /** One data row: the fields of the columns, joined by ",". */
  function RowLine(item: Item, columns: seq<Column>): string {
    Join(Cells(item, columns), ",")
  }

  function RowLines(data: seq<Item>, columns: seq<Column>): seq<string> {
    seq(|data|, i requires 0 <= i < |data| => RowLine(data[i], columns))
  }

  /** The content of the blob: the byte-order mark, the header, "\n", then the rows joined by "\n". */
  function CsvText(data: seq<Item>, columns: seq<Column>): string {
    [Bom] + HeaderLine(columns) + "\n" + Join(RowLines(data, columns), "\n")
  }

  // ---------------------------------------------------------------------------------------
  // Reading a field back

  /** `""` read as `"`. */
  function CollapseQuotes(s: string): string {
    if s == [] then []
    else if |s| >= 2 && s[0] == '"' && s[1] == '"' then "\"" + CollapseQuotes(s[2..])
    else [s[0]] + CollapseQuotes(s[1..])
  }

  /** A quoted field without its outer quotes and with its quotes un-doubled; any other field as is. */
  function Unquote(f: string): string {
    if |f| >= 2 && f[0] == '"' && f[|f| - 1] == '"' then CollapseQuotes(f[1..|f| - 1]) else f
  }

  lemma {:induction false} CollapseDoubled(s: string)
    ensures CollapseQuotes(DoubleQuotes(s)) == s
  {
    if s != [] {
      CollapseDoubled(s[1..]);
      if s[0] == '"' {
        assert ("\"\"" + DoubleQuotes(s[1..]))[2..] == DoubleQuotes(s[1..]);
      } else {
        var d := DoubleQuotes(s);
        assert d[1..] == DoubleQuotes(s[1..]);
        assert s == [s[0]] + s[1..];
      }
    }
  }

  /** Removing the outer quotes and collapsing `""` recovers every value written. */
  lemma UnquoteEscape(s: string)
    ensures Unquote(Escape(s)) == s
  {
    if NeedsQuotes(s) {
      var f := Escape(s);
      assert f[1..|f| - 1] == DoubleQuotes(s);
      CollapseDoubled(s);
    } else if |s| >= 2 {
      assert !Special(s[0]);
    }
  }

  // ---------------------------------------------------------------------------------------
  // Reading the whole text back

  /**
   * A reader for the text: records separated by "\n", fields by ",", a field opened by `"` runs
   * to the next `"` that is not doubled and may hold ",", "\n" and `""` (read as `"`). `field`,
   * `record` and `done` are what has been read so far.
   */
  function Scan(s: string, quoted: bool, field: string, record: seq<string>, done: seq<seq<string>>)
    : seq<seq<string>>
    decreases |s|
  {
    if s == [] then done + [record + [field]]
    else if quoted then
      if s[0] == '"' && |s| > 1 && s[1] == '"' then Scan(s[2..], true, field + "\"", record, done)
      else if s[0] == '"' then Scan(s[1..], false, field, record, done)
      else Scan(s[1..], true, field + [s[0]], record, done)
    else if s[0] == ',' then Scan(s[1..], false, "", record + [field], done)
    else if s[0] == '\n' then Scan(s[1..], false, "", [], done + [record + [field]])
    else if s[0] == '"' && field == "" then Scan(s[1..], true, "", record, done)
    else Scan(s[1..], false, field + [s[0]], record, done)
  }

  /** The records of a text. */
  function Read(s: string): seq<seq<string>> {
    Scan(s, false, "", [], [])
  }

  /** Outside quotes, text without special characters is read as part of the current field. */
  lemma {:induction false} ScanPlain(v: string, rest: string, field: string, record: seq<string>,
                                     done: seq<seq<string>>)
    requires !NeedsQuotes(v)
    ensures Scan(v + rest, false, field, record, done) == Scan(rest, false, field + v, record, done)
  {
    if v != [] {
      assert !Special(v[0]);
      assert (v + rest)[1..] == v[1..] + rest;
      assert !NeedsQuotes(v[1..]) by {
        forall i | 0 <= i < |v[1..]| ensures !Special(v[1..][i]) {
          assert v[1..][i] == v[i + 1];
        }
      }
      ScanPlain(v[1..], rest, field + [v[0]], record, done);
      assert field + [v[0]] + v[1..] == field + v;
    } else {
      assert v + rest == rest;
      assert field + v == field;
    }
  }

  /** Inside quotes, a value with its quotes doubled and a closing quote is read as that value. */
  lemma {:induction false} ScanQuoted(v: string, rest: string, field: string, record: seq<string>,
                                      done: seq<seq<string>>)
    requires rest == [] || rest[0] != '"'
    ensures Scan(DoubleQuotes(v) + "\"" + rest, true, field, record, done)
         == Scan(rest, false, field + v, record, done)
  {
    var s := DoubleQuotes(v) + "\"" + rest;
    if v == [] {
      assert s == "\"" + rest;
      assert s[1..] == rest;
      assert field + v == field;
    } else if v[0] == '"' {
      assert s == "\"\"" + (DoubleQuotes(v[1..]) + "\"" + rest);
      assert s[2..] == DoubleQuotes(v[1..]) + "\"" + rest;
      ScanQuoted(v[1..], rest, field + "\"", record, done);
      assert field + "\"" + v[1..] == field + v;
    } else {
      assert s == [v[0]] + (DoubleQuotes(v[1..]) + "\"" + rest);
      assert s[1..] == DoubleQuotes(v[1..]) + "\"" + rest;
      ScanQuoted(v[1..], rest, field + [v[0]], record, done);
      assert field + [v[0]] + v[1..] == field + v;
    }
  }

  /** A written field, followed by a separator or the end, is read as its value. */
  lemma ScanField(v: string, rest: string, record: seq<string>, done: seq<seq<string>>)
    requires rest == [] || rest[0] == ',' || rest[0] == '\n'
    ensures Scan(Escape(v) + rest, false, "", record, done) == Scan(rest, false, v, record, done)
  {
    if NeedsQuotes(v) {
      ScanQuotedField(v, rest, record, done);
    } else {
      ScanPlain(v, rest, "", record, done);
      assert "" + v == v;
    }
  }

  lemma ScanQuotedField(v: string, rest: string, record: seq<string>, done: seq<seq<string>>)
    requires rest == [] || rest[0] != '"'
    ensures Scan("\"" + DoubleQuotes(v) + "\"" + rest, false, "", record, done) == Scan(rest, false, v, record, done)
  {
    var inner := DoubleQuotes(v) + "\"" + rest;
    var s := "\"" + DoubleQuotes(v) + "\"" + rest;
    assert s == "\"" + inner;
    assert s[0] == '"' && s[1..] == inner;
    assert Scan(s, false, "", record, done) == Scan(inner, true, "", record, done);
    ScanQuoted(v, rest, "", record, done);
    assert "" + v == v;
  }

  /** The fields `Escape(vs[i])` joined by "," are read as the values `vs`. */
  function Written(vs: seq<string>): string {
    Join(seq(|vs|, i requires 0 <= i < |vs| => Escape(vs[i])), ",")
  }

  lemma WrittenOne(vs: seq<string>)
    requires |vs| == 1
    ensures Written(vs) == Escape(vs[0])
  {
  }

  lemma WrittenCons(vs: seq<string>)
    requires |vs| > 1
    ensures Written(vs) == Escape(vs[0]) + "," + Written(vs[1..])
  {
    var fields := seq(|vs|, i requires 0 <= i < |vs| => Escape(vs[i]));
    assert fields[1..] == seq(|vs[1..]|, i requires 0 <= i < |vs[1..]| => Escape(vs[1..][i]));
  }

  /** A "," outside quotes ends the field. */
  lemma ScanComma(s: string, field: string, record: seq<string>, done: seq<seq<string>>)
    requires s != [] && s[0] == ','
    ensures Scan(s, false, field, record, done) == Scan(s[1..], false, "", record + [field], done)
  {
  }

  /** A "\n" outside quotes ends the field and the record. */
  lemma ScanNewline(s: string, field: string, record: seq<string>, done: seq<seq<string>>)
    requires s != [] && s[0] == '\n'
    ensures Scan(s, false, field, record, done) == Scan(s[1..], false, "", [], done + [record + [field]])
  {
  }

  /** A written field followed by "," is read as a finished field. */
  lemma ScanFieldComma(v: string, tail: string, record: seq<string>, done: seq<seq<string>>)
    ensures Scan(Escape(v) + "," + tail, false, "", record, done) == Scan(tail, false, "", record + [v], done)
  {
    var after := "," + tail;
    assert Escape(v) + "," + tail == Escape(v) + after;
    ScanField(v, after, record, done);
    ScanComma(after, v, record, done);
    assert after[1..] == tail;
  }

  /** Splitting off the first value keeps the last value and the ones before it. */
  lemma FirstAndRest(vs: seq<string>, record: seq<string>)
    requires |vs| > 1
    ensures vs[1..][|vs[1..]| - 1] == vs[|vs| - 1]
    ensures record + [vs[0]] + vs[1..][..|vs[1..]| - 1] == record + vs[..|vs| - 1]
  {
    assert vs[..|vs| - 1] == [vs[0]] + vs[1..][..|vs[1..]| - 1];
  }

  lemma {:induction false} ScanRecord(vs: seq<string>, rest: string, record: seq<string>, done: seq<seq<string>>)
    requires vs != [] && (rest == [] || rest[0] == '\n')
    ensures Scan(Written(vs) + rest, false, "", record, done)
         == Scan(rest, false, vs[|vs| - 1], record + vs[..|vs| - 1], done)
  {
    if |vs| == 1 {
      WrittenOne(vs);
      ScanField(vs[0], rest, record, done);
      assert record + vs[..0] == record;
    } else {
      WrittenCons(vs);
      var tail := Written(vs[1..]);
      assert Written(vs) + rest == Escape(vs[0]) + "," + (tail + rest);
      ScanFieldComma(vs[0], tail + rest, record, done);
      ScanRecord(vs[1..], rest, record + [vs[0]], done);
      FirstAndRest(vs, record);
    }
  }

  /** The records written one per line. */
  function WrittenRecords(records: seq<seq<string>>): string {
    Join(seq(|records|, i requires 0 <= i < |records| => Written(records[i])), "\n")
  }

  lemma RecordsOne(records: seq<seq<string>>)
    requires |records| == 1
    ensures WrittenRecords(records) == Written(records[0])
  {
  }

  lemma RecordsCons(records: seq<seq<string>>)
    requires |records| > 1
    ensures WrittenRecords(records) == Written(records[0]) + "\n" + WrittenRecords(records[1..])
  {
    var lines := seq(|records|, i requires 0 <= i < |records| => Written(records[i]));
    assert lines[1..] == seq(|records[1..]|, i requires 0 <= i < |records[1..]| => Written(records[1..][i]));
  }

  /** A whole record, at the end of the text, is read as one more record. */
  lemma ScanLastRecord(vs: seq<string>, done: seq<seq<string>>)
    requires vs != []
    ensures Scan(Written(vs), false, "", [], done) == done + [vs]
  {
    assert Written(vs) == Written(vs) + [];
    ScanRecord(vs, [], [], done);
    assert [] + vs[..|vs| - 1] + [vs[|vs| - 1]] == vs;
  }

  /** A whole record followed by "\n" is read as one more record. */
  lemma ScanRecordLine(vs: seq<string>, tail: string, done: seq<seq<string>>)
    requires vs != []
    ensures Scan(Written(vs) + "\n" + tail, false, "", [], done) == Scan(tail, false, "", [], done + [vs])
  {
    var after := "\n" + tail;
    assert Written(vs) + "\n" + tail == Written(vs) + after;
    ScanRecord(vs, after, [], done);
    ScanNewline(after, vs[|vs| - 1], [] + vs[..|vs| - 1], done);
    assert after[1..] == tail;
    assert [] + vs[..|vs| - 1] + [vs[|vs| - 1]] == vs;
  }

  lemma {:induction false} ScanRecords(records: seq<seq<string>>, done: seq<seq<string>>)
    requires records != [] && forall i :: 0 <= i < |records| ==> records[i] != []
    ensures Scan(WrittenRecords(records), false, "", [], done) == done + records
  {
    if |records| == 1 {
      RecordsOne(records);
      ScanLastRecord(records[0], done);
      assert records == [records[0]];
    } else {
      RecordsCons(records);
      ScanRecordLine(records[0], WrittenRecords(records[1..]), done);
      assert forall i :: 0 <= i < |records| - 1 ==> records[1..][i] == records[i + 1];
      ScanRecords(records[1..], done + [records[0]]);
      assert done + [records[0]] + records[1..] == done + records;
    }
  }

  /** Every record written is read back, field by field. */
  lemma ReadWritten(records: seq<seq<string>>)
    requires records != [] && forall i :: 0 <= i < |records| ==> records[i] != []
    ensures Read(WrittenRecords(records)) == records
  {
    ScanRecords(records, []);
  }

  // ---------------------------------------------------------------------------------------
  // The exported text

  /** A heading is written as is, so it reads back only when it has no special character. */
  predicate PlainHeadings(columns: seq<Column>) {
    forall i :: 0 <= i < |columns| ==> !NeedsQuotes(columns[i].heading)
  }

  /** The values a reader should find in the data rows. */
  function Values(data: seq<Item>, columns: seq<Column>): seq<seq<string>> {
    seq(|data|, i requires 0 <= i < |data| =>
      seq(|columns|, j requires 0 <= j < |columns| => Value(data[i], columns[j])))
  }

  lemma CellsWritten(item: Item, columns: seq<Column>)
    ensures RowLine(item, columns)
         == Written(seq(|columns|, j requires 0 <= j < |columns| => Value(item, columns[j])))
  {
    var vs := seq(|columns|, j requires 0 <= j < |columns| => Value(item, columns[j]));
    assert Cells(item, columns) == seq(|vs|, i requires 0 <= i < |vs| => Escape(vs[i]));
  }

  lemma HeaderWritten(columns: seq<Column>)
    requires PlainHeadings(columns)
    ensures HeaderLine(columns) == Written(Headings(columns))
  {
    var hs := Headings(columns);
    assert seq(|hs|, i requires 0 <= i < |hs| => Escape(hs[i])) == hs;
  }

  lemma RowsWritten(data: seq<Item>, columns: seq<Column>)
    ensures WrittenRecords(Values(data, columns)) == Join(RowLines(data, columns), "\n")
  {
    var values := Values(data, columns);
    var lines := seq(|values|, i requires 0 <= i < |values| => Written(values[i]));
    forall i | 0 <= i < |data| ensures lines[i] == RowLines(data, columns)[i] {
      CellsWritten(data[i], columns);
    }
    assert lines == RowLines(data, columns);
  }

  /** The text after the byte-order mark: the header line, "\n", the data lines. */
  lemma AfterBom(data: seq<Item>, columns: seq<Column>)
    ensures CsvText(data, columns)[1..] == HeaderLine(columns) + "\n" + Join(RowLines(data, columns), "\n")
  {
  }

  /** The data lines are the records of the values; with no items, one empty record. */
  lemma DataWritten(data: seq<Item>, columns: seq<Column>)
    ensures Join(RowLines(data, columns), "\n")
         == WrittenRecords(if data == [] then [[""]] else Values(data, columns))
  {
    if data == [] {
      RecordsOne([[""]]);
      WrittenOne([""]);
      assert !NeedsQuotes("");
    } else {
      RowsWritten(data, columns);
    }
  }

  /** The text after the byte-order mark, written as records. */
  lemma ExportWritten(data: seq<Item>, columns: seq<Column>)
    requires PlainHeadings(columns)
    ensures CsvText(data, columns)[1..]
         == WrittenRecords([Headings(columns)] + if data == [] then [[""]] else Values(data, columns))
  {
    var rows := if data == [] then [[""]] else Values(data, columns);
    var records := [Headings(columns)] + rows;
    HeaderWritten(columns);
    RecordsCons(records);
    assert records[0] == Headings(columns) && records[1..] == rows;
    DataWritten(data, columns);
    AfterBom(data, columns);
  }

  /**
   * After the byte-order mark the export reads back as the headings, then one record per item
   * with one field per column holding its value ("" when absent); with no items the text ends
   * in "\n", which reads as one empty record.
   */
  lemma ReadExport(data: seq<Item>, columns: seq<Column>)
    requires columns != [] && PlainHeadings(columns)
    ensures CsvText(data, columns)[0] == Bom
    ensures Read(CsvText(data, columns)[1..])
         == [Headings(columns)] + if data == [] then [[""]] else Values(data, columns)
  {
    var records := [Headings(columns)] + if data == [] then [[""]] else Values(data, columns);
    ExportWritten(data, columns);
    forall i | 0 <= i < |records| ensures records[i] != [] {
      assert |records[i]| > 0;
    }
    ReadWritten(records);
  }
}
