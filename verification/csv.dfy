/**
  The CSV exporter: per-field escaping and assembly of the export document
  (a fixed header record, then one six-field record per task, records
  separated by LF).  Every property is stated against `CsvReader`.
*/
module Csv {
  import opened Base
  import opened Tasks
  import CsvReader

  const CsvHeaders: seq<string> := ["ID", "Title", "Description", "Status", "Assigned User", "Created Date"]

  /** A field is quoted when it holds a comma, a double quote or a LF (a lone
      CR does not count). */
  predicate NeedsQuoting(text: string) {
    ',' in text || '"' in text || '\n' in text
  }

  /** `text.replace(/"/g, '""')`: every double quote doubled. */
  function DoubleQuotes(text: string): string
    decreases |text|
  {
    if text == [] then ""
    else if text[0] == '"' then "\"\"" + DoubleQuotes(text[1..])
    else [text[0]] + DoubleQuotes(text[1..])
  }

  /** Collapsing the doubled quotes again gives the text back. */
  lemma {:induction false} CollapseDoubled(text: string)
    ensures CsvReader.CollapseQuotes(DoubleQuotes(text)) == text
    decreases |text|
  {
    if text != [] {
      var r := DoubleQuotes(text);
      CollapseDoubled(text[1..]);
      if text[0] == '"' {
        assert r[2..] == DoubleQuotes(text[1..]);
      } else {
        assert r[1..] == DoubleQuotes(text[1..]);
      }
      assert [text[0]] + text[1..] == text;
    }
  }

  /** `String(value)`, with `null`/`undefined` rendered as the empty string. */
  function Text(value: Option<string>): string {
    match value
    case None => ""
    case Some(t) => t
  }

  /** `escapeCsvValue`: empty for an absent value, the text unchanged when it
      needs no quoting, otherwise the text wrapped in double quotes. */
  function EscapeCsvValue(value: Option<string>): (r: string)
    ensures value.None? ==> r == ""
    ensures value.Some? && !NeedsQuoting(value.value) ==> r == value.value
    ensures value.Some? && NeedsQuoting(value.value) ==> |r| >= 2 && r[0] == '"' && r[|r| - 1] == '"'
  {
    match value
    case None => ""
    case Some(text) =>
      if NeedsQuoting(text) then "\"" + DoubleQuotes(text) + "\"" else text
  }

  /** Escaping is reversible: stripping the wrapping quotes of a quoted field
      and collapsing its doubled quotes gives the value's text back, and an
      unquoted field is its own text. */
  lemma UnescapeInvertsEscape(value: Option<string>)
    ensures CsvReader.Unescape(EscapeCsvValue(value)) == Text(value)
  {
    if value.Some? && NeedsQuoting(value.value) {
      var r := EscapeCsvValue(value);
      assert r[1..|r| - 1] == DoubleQuotes(value.value);
      CollapseDoubled(value.value);
    }
  }

  /** The six values of a task's record, in column order. */
  function TaskFields(t: Task): seq<Option<string>> {
    [Some(t.id), Some(t.title), t.description, Some(t.status), t.userName, Some(t.createdAt)]
  }

  /** The texts a reader recovers from a task's record, in column order. */
  function TaskTexts(t: Task): seq<string> {
    [t.id, t.title, Text(t.description), t.status, Text(t.userName), t.createdAt]
  }

  function EscapeRow(values: seq<Option<string>>): seq<string> {
    seq(|values|, i requires 0 <= i < |values| => EscapeCsvValue(values[i]))
  }

  /** One line per record: its escaped fields joined by `,`. */
  function RecordLines(records: seq<seq<Option<string>>>): seq<string> {
    seq(|records|, i requires 0 <= i < |records| => Join(EscapeRow(records[i]), ","))
  }

  function TaskRecords(tasks: seq<Task>): seq<seq<Option<string>>> {
    seq(|tasks|, i requires 0 <= i < |tasks| => TaskFields(tasks[i]))
  }

  function Texts(values: seq<Option<string>>): seq<string> {
    seq(|values|, i requires 0 <= i < |values| => Text(values[i]))
  }

  function TextRows(records: seq<seq<Option<string>>>): seq<seq<string>> {
    seq(|records|, i requires 0 <= i < |records| => Texts(records[i]))
  }

  /** `buildTasksCsv`: reading the document back gives the header record
      followed by one record per task, in order, each holding the task's six
      column texts; its first line is exactly the header line. */
  function BuildTasksCsv(tasks: seq<Task>): (r: string)
    ensures var table := CsvReader.ReadTable(r);
      && table.Some?
      && |table.value| == |tasks| + 1
      && table.value[0] == CsvHeaders
      && forall i :: 0 <= i < |tasks| ==> table.value[i + 1] == TaskTexts(tasks[i])
    ensures var header := "ID,Title,Description,Status,Assigned User,Created Date";
      && |header| <= |r| && r[..|header|] == header
      && (|r| == |header| || r[|header|] == '\n')
  {
    var r := Join([Join(CsvHeaders, ",")] + RecordLines(TaskRecords(tasks)), "\n");
    BuildTasksCsvReadsBack(tasks);
    HeaderIsFirstLine(RecordLines(TaskRecords(tasks)));
    r
  }

  // ---------------------------------------------------------------------
  // Reading back what was written
  // ---------------------------------------------------------------------

  lemma {:induction false} ReadQuotedDoubled(t: string, rest: string)
    requires rest == [] || rest[0] != '"'
    ensures CsvReader.ReadQuoted(DoubleQuotes(t) + "\"" + rest) == Some((t, rest))
    decreases |t|
  {
    var s := DoubleQuotes(t) + "\"" + rest;
    if t == [] {
      assert s == "\"" + rest;
      assert s[1..] == rest;
    } else if t[0] == '"' {
      ReadQuotedDoubled(t[1..], rest);
      assert s[2..] == DoubleQuotes(t[1..]) + "\"" + rest;
      assert "\"" + t[1..] == t;
    } else {
      ReadQuotedDoubled(t[1..], rest);
      assert s[1..] == DoubleQuotes(t[1..]) + "\"" + rest;
      assert [t[0]] + t[1..] == t;
    }
  }

  lemma {:induction false} ReadPlainText(t: string, rest: string)
    requires ',' !in t && '\n' !in t
    requires rest == [] || rest[0] == ',' || rest[0] == '\n'
    ensures CsvReader.ReadPlain(t + rest) == (t, rest)
    decreases |t|
  {
    if t != [] {
      ReadPlainText(t[1..], rest);
      assert (t + rest)[1..] == t[1..] + rest;
      assert [t[0]] + t[1..] == t;
    } else {
      assert t + rest == rest;
    }
  }

  /** A reader recovers an escaped field's text and stops at the separator
      that follows it. */
  lemma ReadEscapedField(v: Option<string>, rest: string)
    requires rest == [] || rest[0] == ',' || rest[0] == '\n'
    ensures CsvReader.ReadField(EscapeCsvValue(v) + rest) == Some((Text(v), rest))
  {
    var e := EscapeCsvValue(v);
    match v
    case None =>
      assert e + rest == rest;
    case Some(t) =>
      if NeedsQuoting(t) {
        ReadQuotedDoubled(t, rest);
        assert (e + rest)[1..] == DoubleQuotes(t) + "\"" + rest;
      } else {
        ReadPlainText(t, rest);
        assert t == [] || t[0] != '"';
      }
  }

  lemma {:induction false} ReadEscapedRecord(values: seq<Option<string>>, rest: string)
    requires |values| > 0
    requires rest == [] || rest[0] == '\n'
    ensures CsvReader.ReadRecord(Join(EscapeRow(values), ",") + rest) == Some((Texts(values), rest))
    decreases |values|
  {
    var row := EscapeRow(values);
    var e := EscapeCsvValue(values[0]);
    if |values| == 1 {
      assert row == [e];
      assert Texts(values) == [Text(values[0])];
      ReadEscapedField(values[0], rest);
      CsvReader.ReadRecordEnds(e + rest, Text(values[0]), rest);
    } else {
      assert row == [e] + EscapeRow(values[1..]);
      assert Texts(values) == [Text(values[0])] + Texts(values[1..]);
      JoinCons(e, EscapeRow(values[1..]), ",");
      var tail := Join(EscapeRow(values[1..]), ",") + rest;
      assert Join(row, ",") + rest == e + ("," + tail);
      ReadEscapedField(values[0], "," + tail);
      ReadEscapedRecord(values[1..], rest);
      CsvReader.ReadRecordContinues(e + ("," + tail), Text(values[0]), tail);
    }
  }

  lemma RecordsCons(records: seq<seq<Option<string>>>)
    requires |records| > 0
    ensures RecordLines(records) == [Join(EscapeRow(records[0]), ",")] + RecordLines(records[1..])
    ensures TextRows(records) == [Texts(records[0])] + TextRows(records[1..])
  {
  }

  lemma {:induction false} ReadRecordLines(records: seq<seq<Option<string>>>)
    requires |records| > 0
    requires forall i :: 0 <= i < |records| ==> |records[i]| > 0
    ensures CsvReader.ReadTable(Join(RecordLines(records), "\n")) == Some(TextRows(records))
    decreases |records|
  {
    var first := Join(EscapeRow(records[0]), ",");
    RecordsCons(records);
    if |records| == 1 {
      assert RecordLines(records) == [first];
      assert TextRows(records) == [Texts(records[0])];
      ReadEscapedRecord(records[0], []);
      assert first + [] == first;
      CsvReader.ReadTableEnds(first, Texts(records[0]));
    } else {
      var rest := RecordLines(records[1..]);
      JoinCons(first, rest, "\n");
      var tail := Join(rest, "\n");
      assert first + "\n" + tail == first + ("\n" + tail);
      ReadEscapedRecord(records[0], "\n" + tail);
      ReadRecordLines(records[1..]);
      CsvReader.ReadTableContinues(first + ("\n" + tail), Texts(records[0]), tail);
    }
  }

  const HeaderValues: seq<Option<string>> :=
    [Some("ID"), Some("Title"), Some("Description"), Some("Status"), Some("Assigned User"), Some("Created Date")]

  // The header facts below are split into small steps over short literals:
  // one lemma over the whole header line costs the solver far more than the
  // sum of these pieces.

  lemma ShortHeadersPlain()
    ensures !NeedsQuoting("ID") && !NeedsQuoting("Title") && !NeedsQuoting("Status")
  {
  }

  lemma LongHeadersPlain()
    ensures !NeedsQuoting("Description") && !NeedsQuoting("Assigned User") && !NeedsQuoting("Created Date")
  {
  }

  /** The header texts need no quoting, so writing them verbatim is the same
      as escaping them. */
  lemma HeaderNeedsNoQuoting()
    ensures EscapeRow(HeaderValues) == CsvHeaders
    ensures Texts(HeaderValues) == CsvHeaders
  {
    ShortHeadersPlain();
    LongHeadersPlain();
    forall i | 0 <= i < |HeaderValues|
      ensures HeaderValues[i] == Some(CsvHeaders[i]) && !NeedsQuoting(CsvHeaders[i])
    {
    }
  }

  lemma HeaderRecordLine(tasks: seq<Task>)
    ensures RecordLines([HeaderValues] + TaskRecords(tasks)) == [Join(CsvHeaders, ",")] + RecordLines(TaskRecords(tasks))
  {
    HeaderNeedsNoQuoting();
    var records := [HeaderValues] + TaskRecords(tasks);
    assert records[0] == HeaderValues;
    assert forall i :: 0 < i < |records| ==> records[i] == TaskRecords(tasks)[i - 1];
  }

  lemma TaskRecordTexts(tasks: seq<Task>)
    ensures var rows := TextRows([HeaderValues] + TaskRecords(tasks));
      && |rows| == |tasks| + 1
      && forall i :: 0 <= i < |tasks| ==> rows[i + 1] == TaskTexts(tasks[i])
  {
    var records := [HeaderValues] + TaskRecords(tasks);
    forall i | 0 <= i < |tasks|
      ensures TextRows(records)[i + 1] == TaskTexts(tasks[i])
    {
      assert records[i + 1] == TaskFields(tasks[i]);
    }
  }

  lemma BuildTasksCsvReadsBack(tasks: seq<Task>)
    ensures var table := CsvReader.ReadTable(Join([Join(CsvHeaders, ",")] + RecordLines(TaskRecords(tasks)), "\n"));
      && table.Some?
      && |table.value| == |tasks| + 1
      && table.value[0] == CsvHeaders
      && forall i :: 0 <= i < |tasks| ==> table.value[i + 1] == TaskTexts(tasks[i])
  {
    var records := [HeaderValues] + TaskRecords(tasks);
    HeaderRecordLine(tasks);
    ReadRecordLines(records);
    HeaderNeedsNoQuoting();
    assert TextRows(records)[0] == Texts(HeaderValues);
    TaskRecordTexts(tasks);
  }

  lemma JoinPair(x: string, y: string)
    ensures Join([x, y], ",") == x + "," + y
  {
    assert [x, y][1..] == [y];
  }

  lemma HeaderJoinFirstTwo()
    ensures Join(["ID", "Title"], ",") == "ID,Title"
  {
    JoinPair("ID", "Title");
  }

  lemma HeaderJoinMiddleTwo()
    ensures Join(["Description", "Status"], ",") == "Description,Status"
  {
    JoinPair("Description", "Status");
  }

  lemma HeaderJoinLastTwo()
    ensures Join(["Assigned User", "Created Date"], ",") == "Assigned User,Created Date"
  {
    JoinPair("Assigned User", "Created Date");
  }

  lemma HeaderJoinFirstFour()
    ensures Join(["ID", "Title", "Description", "Status"], ",") == "ID,Title,Description,Status"
  {
    HeaderJoinFirstTwo();
    HeaderJoinMiddleTwo();
    JoinAppend(["ID", "Title"], ["Description", "Status"], ",");
    assert ["ID", "Title"] + ["Description", "Status"] == ["ID", "Title", "Description", "Status"];
    assert "ID,Title" + "," + "Description,Status" == "ID,Title,Description,Status";
  }

  lemma HeaderLineConcat()
    ensures "ID,Title,Description,Status" + "," + "Assigned User,Created Date"
         == "ID,Title,Description,Status,Assigned User,Created Date"
  {
  }

  /** The header record, joined by commas, is the literal header line. */
  lemma HeaderJoin()
    ensures Join(CsvHeaders, ",") == "ID,Title,Description,Status,Assigned User,Created Date"
  {
    HeaderJoinFirstFour();
    HeaderJoinLastTwo();
    JoinAppend(["ID", "Title", "Description", "Status"], ["Assigned User", "Created Date"], ",");
    assert ["ID", "Title", "Description", "Status"] + ["Assigned User", "Created Date"] == CsvHeaders;
    HeaderLineConcat();
  }

  lemma HeaderIsFirstLine(lines: seq<string>)
    ensures var r := Join([Join(CsvHeaders, ",")] + lines, "\n");
      var header := "ID,Title,Description,Status,Assigned User,Created Date";
      && |header| <= |r| && r[..|header|] == header
      && (|r| == |header| || r[|header|] == '\n')
  {
    HeaderJoin();
    var header := "ID,Title,Description,Status,Assigned User,Created Date";
    if lines != [] {
      JoinCons(header, lines, "\n");
    }
  }

  // ---------------------------------------------------------------------
  // Quote doubling, and escaping of texts of particular shapes
  // ---------------------------------------------------------------------

  lemma {:induction false} DoubleQuotesAppend(a: string, b: string)
    ensures DoubleQuotes(a + b) == DoubleQuotes(a) + DoubleQuotes(b)
    decreases |a|
  {
    if a != [] {
      assert (a + b)[1..] == a[1..] + b;
      DoubleQuotesAppend(a[1..], b);
    } else {
      assert a + b == b;
    }
  }

  lemma {:induction false} DoubleQuotesWithoutQuotes(text: string)
    requires '"' !in text
    ensures DoubleQuotes(text) == text
    decreases |text|
  {
    if text != [] {
      DoubleQuotesWithoutQuotes(text[1..]);
      assert [text[0]] + text[1..] == text;
    }
  }

  /** A text with a comma but no double quote (`Buy milk, eggs`) is only
      wrapped in quotes. */
  lemma EscapeCommaText(text: string)
    requires ',' in text && '"' !in text
    ensures EscapeCsvValue(Some(text)) == "\"" + text + "\""
  {
    DoubleQuotesWithoutQuotes(text);
  }

  lemma DoubleQuotesOfQuote()
    ensures DoubleQuotes("\"") == "\"\""
  {
  }

  lemma {:induction false} DoubleQuotesQuotedWord(prefix: string, word: string)
    requires '"' !in prefix && '"' !in word
    ensures DoubleQuotes(prefix + ("\"" + (word + "\""))) == prefix + ("\"\"" + (word + "\"\""))
  {
    var q := "\"";
    DoubleQuotesAppend(prefix, q + (word + q));
    DoubleQuotesAppend(q, word + q);
    DoubleQuotesAppend(word, q);
    DoubleQuotesWithoutQuotes(prefix);
    DoubleQuotesWithoutQuotes(word);
    DoubleQuotesOfQuote();
  }

  /** A text with a quoted word (`He said "go"`) has both of its quotes
      doubled inside the wrapping quotes (`"He said ""go"""`). */
  lemma EscapeQuotedWord(prefix: string, word: string)
    requires '"' !in prefix && '"' !in word
    ensures EscapeCsvValue(Some(prefix + "\"" + word + "\""))
         == "\"" + prefix + "\"\"" + word + "\"\"" + "\""
  {
    var text := prefix + "\"" + word + "\"";
    assert text == prefix + ("\"" + (word + "\""));
    assert text[|prefix|] == '"';
    DoubleQuotesQuotedWord(prefix, word);
    assert "\"" + (prefix + ("\"\"" + (word + "\"\""))) + "\""
        == "\"" + prefix + "\"\"" + word + "\"\"" + "\"";
  }

  /** Quote doubling adds exactly one character per quote: the result has
      twice as many quotes as the text and the same number of every other
      character. */
  lemma {:induction false} DoubleQuotesCounts(text: string)
    ensures |DoubleQuotes(text)| == |text| + multiset(text)['"']
    ensures multiset(DoubleQuotes(text))['"'] == 2 * multiset(text)['"']
    ensures forall c :: c != '"' ==> multiset(DoubleQuotes(text))[c] == multiset(text)[c]
    decreases |text|
  {
    if text != [] {
      DoubleQuotesCounts(text[1..]);
      assert text == [text[0]] + text[1..];
      assert multiset(text) == multiset([text[0]]) + multiset(text[1..]);
      var head := if text[0] == '"' then "\"\"" else [text[0]];
      assert DoubleQuotes(text) == head + DoubleQuotes(text[1..]);
      assert multiset(DoubleQuotes(text)) == multiset(head) + multiset(DoubleQuotes(text[1..]));
    }
  }

  /** Every quote of a quoted field's text is doubled: the escaped field
      holds the text's characters, each of its quotes twice, plus the two
      wrapping quotes, and reading it back collapses the pairs again. */
  lemma EscapeDoublesEveryQuote(text: string)
    requires NeedsQuoting(text)
    ensures var r := EscapeCsvValue(Some(text));
      && |r| == |text| + multiset(text)['"'] + 2
      && multiset(r)['"'] == 2 * multiset(text)['"'] + 2
      && (forall c :: c != '"' ==> multiset(r)[c] == multiset(text)[c])
      && CsvReader.CollapseQuotes(r[1..|r| - 1]) == text
  {
    var d := DoubleQuotes(text);
    var r := EscapeCsvValue(Some(text));
    assert r == "\"" + d + "\"";
    assert multiset(r) == multiset("\"") + multiset(d) + multiset("\"");
    assert r[1..|r| - 1] == d;
    DoubleQuotesCounts(text);
    CollapseDoubled(text);
  }

  /** A carriage return without a comma, quote or LF does not cause quoting:
      such a text is written as it is. */
  lemma EscapeLoneCarriageReturn(text: string)
    requires '\r' in text && ',' !in text && '"' !in text && '\n' !in text
    ensures EscapeCsvValue(Some(text)) == text
  {
  }
}
