/**
  A reader for the CSV dialect the exporter writes: fields separated by `,`,
  records separated by a single LF, and a field that starts with `"` read up
  to its closing quote with `""` standing for one `"` (the quoting rules of
  section 2 of RFC 4180, with LF in place of CRLF).  It is the independent
  reference the exporter is proved against.
*/
module CsvReader {
  import opened Base

  /** Reads an unquoted field: everything up to the first `,` or LF. */
  function ReadPlain(s: string): (r: (string, string))
    ensures |r.1| <= |s|
    ensures r.0 + r.1 == s
    ensures r.1 == [] || r.1[0] == ',' || r.1[0] == '\n'
    decreases |s|
  {
    if s == [] || s[0] == ',' || s[0] == '\n' then ("", s)
    else
      var (f, rest) := ReadPlain(s[1..]);
      ([s[0]] + f, rest)
  }

  /** Reads the body of a quoted field, the opening quote already consumed:
      `""` yields one `"`, a lone `"` closes the field.  `None` when the input
      ends before the closing quote. */
  function ReadQuoted(s: string): (r: Option<(string, string)>)
    ensures r.Some? ==> |r.value.1| < |s|
    decreases |s|
  {
    if s == [] then None
    else if s[0] == '"' then
      if |s| > 1 && s[1] == '"' then
        match ReadQuoted(s[2..])
        case None => None
        case Some((f, rest)) => Some(("\"" + f, rest))
      else Some(("", s[1..]))
    else
      match ReadQuoted(s[1..])
      case None => None
      case Some((f, rest)) => Some(([s[0]] + f, rest))
  }

  /** Reads one field, quoted or not, and returns its text and the unread rest. */
  function ReadField(s: string): (r: Option<(string, string)>)
    ensures r.Some? ==> |r.value.1| <= |s|
  {
    if |s| > 0 && s[0] == '"' then ReadQuoted(s[1..]) else Some(ReadPlain(s))
  }

  /** Reads the fields of one record, up to (not including) its LF. */
  function ReadRecord(s: string): (r: Option<(seq<string>, string)>)
    ensures r.Some? ==> |r.value.0| > 0 && |r.value.1| <= |s|
    decreases |s|
  {
    match ReadField(s)
    case None => None
    case Some((f, rest)) =>
      if |rest| > 0 && rest[0] == ',' then
        match ReadRecord(rest[1..])
        case None => None
        case Some((fs, rest')) => Some(([f] + fs, rest'))
      else Some(([f], rest))
  }

  /** A field followed by `,` continues the record with the fields read
      after the comma. */
  lemma ReadRecordContinues(s: string, f: string, tail: string)
    requires ReadField(s) == Some((f, "," + tail))
    requires ReadRecord(tail).Some?
    ensures ReadRecord(s) == Some(([f] + ReadRecord(tail).value.0, ReadRecord(tail).value.1))
  {
    assert ("," + tail)[1..] == tail;
  }

  /** A field followed by anything but `,` ends the record. */
  lemma ReadRecordEnds(s: string, f: string, rest: string)
    requires ReadField(s) == Some((f, rest))
    requires rest == [] || rest[0] != ','
    ensures ReadRecord(s) == Some(([f], rest))
  {
  }

  /** A record that runs to the end of the text is the last one. */
  lemma ReadTableEnds(s: string, record: seq<string>)
    requires ReadRecord(s) == Some((record, []))
    ensures ReadTable(s) == Some([record])
  {
  }

  /** A record followed by LF continues the document with the records read
      after it. */
  lemma ReadTableContinues(s: string, record: seq<string>, tail: string)
    requires ReadRecord(s) == Some((record, "\n" + tail))
    requires ReadTable(tail).Some?
    ensures ReadTable(s) == Some([record] + ReadTable(tail).value)
  {
    assert ("\n" + tail)[1..] == tail;
  }

  /** Reads a whole document into its records.  `None` when a record is
      followed by anything but LF or the end of the text. */
  function ReadTable(s: string): (r: Option<seq<seq<string>>>)
    ensures r.Some? ==> |r.value| > 0
    decreases |s|
  {
    match ReadRecord(s)
    case None => None
    case Some((record, rest)) =>
      if rest == [] then Some([record])
      else if rest[0] == '\n' then
        match ReadTable(rest[1..])
        case None => None
        case Some(records) => Some([record] + records)
      else None
  }

  /** Collapses every `""` into `"`, as a reader does inside a quoted field. */
  function CollapseQuotes(s: string): string
    decreases |s|
  {
    if |s| >= 2 && s[0] == '"' && s[1] == '"' then "\"" + CollapseQuotes(s[2..])
    else if s == [] then ""
    else [s[0]] + CollapseQuotes(s[1..])
  }

  /** The text of a single field: a field wrapped in double quotes loses them
      and has its doubled quotes collapsed; any other field is its own text. */
  function Unescape(field: string): string {
    if |field| >= 2 && field[0] == '"' && field[|field| - 1] == '"'
    then CollapseQuotes(field[1..|field| - 1])
    else field
  }
}
