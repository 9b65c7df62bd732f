/**
  The CSV tokeniser `parse_csv` uses: `csv.reader(io.StringIO(content),
  skipinitialspace=True)` with the default "excel" dialect (delimiter `,`,
  quote character `"`, doubled quotes inside quoted fields, no escape
  character, not strict).

  The reader is CPython's `_csv` state machine.  `io.StringIO` hands it the
  text line by line, each line ending after a `\n`; the reader processes
  every character of a line and then an end-of-line event, and returns a
  record once it is back at the start of a record after such an event.  At
  the end of the text an unterminated quoted field is flushed as a last
  record.
 */
module CsvReader {
  import opened Wrappers

  /** The states of the reader that the excel dialect can reach. */
  datatype State =
    | StartRecord
    | StartField
    | InField
    | InQuotedField
    | QuoteInQuotedField
    | EatCrNl

  /**
    The reader's state, the field being collected, the fields of the
    current record and the records returned so far.
   */
  datatype Reader = Reader(state: State, field: string, fields: seq<string>, records: seq<seq<string>>)

  const Initial := Reader(StartRecord, "", [], [])

  const UnquotedNewlineError := "new-line character seen in unquoted field"

  predicate IsNewline(c: char) {
    c == '\n' || c == '\r'
  }

  /** Ends the current field and appends it to the record. */
  function SaveField(r: Reader): Reader {
    r.(field := "", fields := r.fields + [r.field])
  }

  function AddChar(r: Reader, c: char): Reader {
    r.(field := r.field + [c])
  }

  /** A character seen where a field is expected. */
  function StartFieldChar(r: Reader, c: char): Reader {
    if IsNewline(c) then SaveField(r).(state := EatCrNl)
    else if c == '"' then r.(state := InQuotedField)
    else if c == ' ' then r.(state := StartField)     // skipinitialspace
    else if c == ',' then SaveField(r).(state := StartField)
    else AddChar(r, c).(state := InField)
  }

  /** One character of a line. */
  function StepChar(r: Reader, c: char): Result<Reader> {
    match r.state
    case StartRecord =>
      if IsNewline(c) then Ok(r.(state := EatCrNl)) else Ok(StartFieldChar(r, c))
    case StartField =>
      Ok(StartFieldChar(r, c))
    case InField =>
      if IsNewline(c) then Ok(SaveField(r).(state := EatCrNl))
      else if c == ',' then Ok(SaveField(r).(state := StartField))
      else Ok(AddChar(r, c))
    case InQuotedField =>
      if c == '"' then Ok(r.(state := QuoteInQuotedField)) else Ok(AddChar(r, c))
    case QuoteInQuotedField =>
      if c == '"' then Ok(AddChar(r, c).(state := InQuotedField))
      else if c == ',' then Ok(SaveField(r).(state := StartField))
      else if IsNewline(c) then Ok(SaveField(r).(state := EatCrNl))
      else Ok(AddChar(r, c).(state := InField))
    case EatCrNl =>
      if IsNewline(c) then Ok(r) else Err(UnquotedNewlineError)
  }

  /**
    The end-of-line event after each line, followed by the reader's check
    whether the record is complete.
   */
  function EndLine(r: Reader): Reader {
    var r1 :=
      match r.state
      case StartRecord => r
      case InQuotedField => r
      case EatCrNl => r.(state := StartRecord)
      case _ => SaveField(r).(state := StartRecord);
    if r1.state == StartRecord then Reader(StartRecord, "", [], r1.records + [r1.fields]) else r1
  }

  /**
    Feeds `s` to the reader.  A reader that is not eating a line break
    never fails on text without CR, and is not left eating one.
   */
  function Feed(r: Reader, s: string): (res: Result<Reader>)
    ensures r.state != EatCrNl && '\r' !in s ==> res.Ok? && res.value.state != EatCrNl
    decreases |s|
  {
    if s == [] then Ok(r)
    else
      var r1 :- StepChar(r, s[0]);
      assert s[0] != '\r' ==> (r1.state == EatCrNl ==> s[0] == '\n');
      Feed(LineEnd(r1, s[0]), s[1..])
  }

  /** After a character that ends a line, the end-of-line event follows. */
  function LineEnd(r: Reader, c: char): Reader {
    if c == '\n' then EndLine(r) else r
  }

  /** All records of `s`, or the reader's error. */
  function ReadRecords(s: string): (res: Result<seq<seq<string>>>)
    ensures '\r' !in s ==> res.Ok?
  {
    var r :- Feed(Initial, s);
    var r1 := if s != [] && s[|s| - 1] != '\n' then EndLine(r) else r;
    Ok(if r1.field != [] || r1.state == InQuotedField then r1.records + [r1.fields + [r1.field]]
       else r1.records)
  }

  // ---------------------------------------------------------------------
  // Round trip: writing records back as text.  A field written between quotes,
  // with every quote doubled, is read back exactly, whatever it contains.

  /** Doubles every quote character of `f`. */
  function DoubleQuotes(f: string): string {
    if f == [] then []
    else (if f[0] == '"' then "\"\"" else [f[0]]) + DoubleQuotes(f[1..])
  }

  function QuoteField(f: string): string {
    "\"" + DoubleQuotes(f) + "\""
  }

  /** One record as a line of quoted fields separated by commas. */
  function WriteRecord(fs: seq<string>): string {
    if fs == [] then ""
    else if |fs| == 1 then QuoteField(fs[0])
    else QuoteField(fs[0]) + "," + WriteRecord(fs[1..])
  }

  /** Records as lines separated by LF (no line break after the last). */
  function WriteRecords(rows: seq<seq<string>>): string {
    if rows == [] then ""
    else if |rows| == 1 then WriteRecord(rows[0])
    else WriteRecord(rows[0]) + "\n" + WriteRecords(rows[1..])
  }

  /** Feeding one character and then the rest. */
  lemma {:induction false} FeedStep(r: Reader, c: char, s: string)
    requires StepChar(r, c).Ok?
    ensures Feed(r, [c] + s) == Feed(LineEnd(StepChar(r, c).value, c), s)
  {
    assert ([c] + s)[0] == c && ([c] + s)[1..] == s;
  }

  /** Feeding two pieces of text one after the other is feeding their concatenation. */
  lemma {:induction false} FeedAppend(r: Reader, a: string, b: string)
    requires Feed(r, a).Ok?
    ensures Feed(r, a + b) == Feed(Feed(r, a).value, b)
    decreases a
  {
    if a == [] {
      assert a + b == b;
    } else {
      assert a == [a[0]] + a[1..];
      assert a + b == [a[0]] + (a[1..] + b);
      FeedStep(r, a[0], a[1..]);
      FeedStep(r, a[0], a[1..] + b);
      FeedAppend(LineEnd(StepChar(r, a[0]).value, a[0]), a[1..], b);
    }
  }

  /** Text that takes the reader from `r` to `r1`, followed by more text. */
  lemma {:induction false} FeedThen(r: Reader, a: string, r1: Reader, b: string)
    requires Feed(r, a) == Ok(r1)
    ensures Feed(r, a + b) == Feed(r1, b)
  {
    FeedAppend(r, a, b);
  }

  /** A line that takes the reader from `r` to `r1`, its line break to `r2`, then more text. */
  lemma {:induction false} FeedLine(r: Reader, line: string, r1: Reader, r2: Reader, rest: string)
    requires Feed(r, line) == Ok(r1) && Feed(r1, "\n") == Ok(r2)
    ensures Feed(r, line + "\n" + rest) == Feed(r2, rest)
  {
    FeedThen(r, line, r1, "\n");
    FeedThen(r, line + "\n", r2, rest);
  }

  /** Dropping the last element after moving the first one into the prefix. */
  lemma {:induction false} ShiftFirst<T>(pre: seq<T>, xs: seq<T>)
    requires |xs| >= 2
    ensures (pre + [xs[0]]) + xs[1..][..|xs[1..]| - 1] == pre + xs[..|xs| - 1]
    ensures xs[1..][|xs[1..]| - 1] == xs[|xs| - 1]
  {
    assert xs[..|xs| - 1] == [xs[0]] + xs[1..][..|xs| - 2];
  }

  /** Inside a quoted field, the doubled-quote text of `f` and the closing quote add `f` to the field. */
  lemma {:induction false} FeedQuotedBody(r: Reader, f: string)
    requires r.state == InQuotedField
    ensures Feed(r, DoubleQuotes(f) + "\"") == Ok(r.(state := QuoteInQuotedField, field := r.field + f))
    decreases f
  {
    if f == [] {
      assert DoubleQuotes(f) + "\"" == ['"'] + [];
      FeedStep(r, '"', []);
      assert r.field + f == r.field;
    } else if f[0] == '"' {
      var r1 := r.(state := QuoteInQuotedField);
      var r2 := r.(field := r.field + "\"");
      assert DoubleQuotes(f) + "\"" == ['"'] + (['"'] + (DoubleQuotes(f[1..]) + "\""));
      FeedStep(r, '"', ['"'] + (DoubleQuotes(f[1..]) + "\""));
      FeedStep(r1, '"', DoubleQuotes(f[1..]) + "\"");
      FeedQuotedBody(r2, f[1..]);
      assert r2.field + f[1..] == r.field + f;
    } else {
      var r1 := r.(field := r.field + [f[0]]);
      assert DoubleQuotes(f) + "\"" == [f[0]] + (DoubleQuotes(f[1..]) + "\"");
      FeedStep(r, f[0], DoubleQuotes(f[1..]) + "\"");
      assert LineEnd(r1, f[0]) == r1;
      FeedQuotedBody(r1, f[1..]);
      assert r1.field + f[1..] == r.field + f;
    }
  }

  /** The reader is where a field starts, with nothing collected. */
  predicate AtFieldStart(r: Reader) {
    (r.state == StartRecord || r.state == StartField) && r.field == []
  }

  /** A quoted field read from the start of a field. */
  lemma {:induction false} QuotedFieldRead(r: Reader, f: string)
    requires AtFieldStart(r)
    ensures Feed(r, QuoteField(f)) == Ok(r.(state := QuoteInQuotedField, field := f))
  {
    var r1 := r.(state := InQuotedField);
    assert QuoteField(f) == ['"'] + (DoubleQuotes(f) + "\"");
    FeedStep(r, '"', DoubleQuotes(f) + "\"");
    FeedQuotedBody(r1, f);
    assert r1.field + f == f;
  }

  /** A line of quoted fields leaves every field but the last saved and the last one just closed. */
  lemma {:induction false} RecordRead(r: Reader, fs: seq<string>)
    requires AtFieldStart(r) && |fs| >= 1
    ensures Feed(r, WriteRecord(fs))
         == Ok(Reader(QuoteInQuotedField, fs[|fs| - 1], r.fields + fs[..|fs| - 1], r.records))
    decreases fs
  {
    QuotedFieldRead(r, fs[0]);
    if |fs| == 1 {
      assert r.fields + fs[..0] == r.fields;
    } else {
      var r1 := r.(state := QuoteInQuotedField, field := fs[0]);
      var r2 := Reader(StartField, "", r.fields + [fs[0]], r.records);
      var rest := WriteRecord(fs[1..]);
      FeedStep(r1, ',', rest);
      FeedThen(r, QuoteField(fs[0]), r1, "," + rest);
      assert QuoteField(fs[0]) + ("," + rest) == WriteRecord(fs);
      RecordRead(r2, fs[1..]);
      ShiftFirst(r.fields, fs);
    }
  }

  /** Closing a record: the line break and the end-of-line event return it. */
  lemma {:induction false} RecordEnd(r: Reader)
    requires r.state == QuoteInQuotedField
    ensures Feed(r, "\n") == Ok(Reader(StartRecord, "", [], r.records + [r.fields + [r.field]]))
    ensures EndLine(r) == Reader(StartRecord, "", [], r.records + [r.fields + [r.field]])
  {
    FeedStep(r, '\n', []);
  }

  lemma {:induction false} RecordsRead(recs: seq<seq<string>>, rows: seq<seq<string>>)
    requires |rows| >= 1 && forall i :: 0 <= i < |rows| ==> |rows[i]| >= 1
    ensures var last := rows[|rows| - 1];
            (Feed(Reader(StartRecord, "", [], recs), WriteRecords(rows))
             == Ok(Reader(QuoteInQuotedField, last[|last| - 1], last[..|last| - 1], recs + rows[..|rows| - 1])))
    decreases rows
  {
    var r := Reader(StartRecord, "", [], recs);
    RecordRead(r, rows[0]);
    if |rows| == 1 {
      assert [] + rows[0][..|rows[0]| - 1] == rows[0][..|rows[0]| - 1];
      assert recs + rows[..0] == recs;
    } else {
      var r1 := Reader(QuoteInQuotedField, rows[0][|rows[0]| - 1], rows[0][..|rows[0]| - 1], recs);
      var r2 := Reader(StartRecord, "", [], recs + [rows[0]]);
      RecordEnd(r1);
      assert [] + rows[0][..|rows[0]| - 1] == rows[0][..|rows[0]| - 1];
      assert r1.fields + [r1.field] == rows[0];
      var w := WriteRecords(rows[1..]);
      assert WriteRecords(rows) == WriteRecord(rows[0]) + "\n" + w;
      FeedLine(r, WriteRecord(rows[0]), r1, r2, w);
      RecordsRead(recs + [rows[0]], rows[1..]);
      ShiftFirst(recs, rows);
    }
  }

  lemma {:induction false} WrittenRecordsEnd(rows: seq<seq<string>>)
    requires |rows| >= 1 && forall i :: 0 <= i < |rows| ==> |rows[i]| >= 1
    ensures var s := WriteRecords(rows); s != [] && s[|s| - 1] == '"'
  {
    var fs := rows[|rows| - 1];
    if |rows| > 1 {
      WrittenRecordsEnd(rows[1..]);
      assert WriteRecords(rows) == WriteRecord(rows[0]) + "\n" + WriteRecords(rows[1..]);
    } else {
      WrittenRecordEnd(fs);
    }
  }

  lemma {:induction false} WrittenRecordEnd(fs: seq<string>)
    requires |fs| >= 1
    ensures var s := WriteRecord(fs); s != [] && s[|s| - 1] == '"'
  {
    if |fs| > 1 {
      WrittenRecordEnd(fs[1..]);
    }
  }

  /** The records of a text whose last line is unterminated and completes a record. */
  lemma ReadCompletedRecords(s: string, r: Reader, recs: seq<seq<string>>)
    requires s != [] && s[|s| - 1] != '\n'
    requires Feed(Initial, s) == Ok(r) && EndLine(r) == Reader(StartRecord, "", [], recs)
    ensures ReadRecords(s) == Ok(recs)
  {
  }

  /** The reader after the quoted text of `rows`, just past the last closing quote. */
  function AfterWritten(rows: seq<seq<string>>): Reader
    requires |rows| >= 1 && |rows[|rows| - 1]| >= 1
  {
    var last := rows[|rows| - 1];
    Reader(QuoteInQuotedField, last[|last| - 1], last[..|last| - 1], rows[..|rows| - 1])
  }

  lemma {:induction false} WrittenFeed(rows: seq<seq<string>>)
    requires |rows| >= 1 && forall i :: 0 <= i < |rows| ==> |rows[i]| >= 1
    ensures Feed(Initial, WriteRecords(rows)) == Ok(AfterWritten(rows))
  {
    RecordsRead([], rows);
    assert [] + rows[..|rows| - 1] == rows[..|rows| - 1];
  }

  lemma {:induction false} WrittenClose(rows: seq<seq<string>>)
    requires |rows| >= 1 && |rows[|rows| - 1]| >= 1
    ensures EndLine(AfterWritten(rows)) == Reader(StartRecord, "", [], rows)
  {
    var r := AfterWritten(rows);
    var last := rows[|rows| - 1];
    RecordEnd(r);
    assert last[..|last| - 1] + [last[|last| - 1]] == last;
    assert rows[..|rows| - 1] + [last] == rows;
  }

  /**
    The reader inverts the quoting writer: every sequence of non-empty
    records, whatever their fields contain (commas, quotes, line breaks,
    CR, leading spaces), is read back exactly.
   */
  lemma {:induction false} ReadWrittenRecords(rows: seq<seq<string>>)
    requires forall i :: 0 <= i < |rows| ==> |rows[i]| >= 1
    ensures ReadRecords(WriteRecords(rows)) == Ok(rows)
  {
    if rows != [] {
      WrittenFeed(rows);
      WrittenRecordsEnd(rows);
      WrittenClose(rows);
      ReadCompletedRecords(WriteRecords(rows), AfterWritten(rows), rows);
    }
  }

  // ---------------------------------------------------------------------
  // Round trip: plain comma-joined lines.  Fields that need no quoting are
  // read back from text that simply joins them, less the spaces
  // `skipinitialspace` skips at the start of each field.

  /** A field without the spaces it starts with. */
  function SkipSpaces(f: string): (g: string)
    ensures g == [] || g[0] != ' '
  {
    if f != [] && f[0] == ' ' then SkipSpaces(f[1..]) else f
  }

  /** The fields of a record as they are read back. */
  function SkipAll(fs: seq<string>): (gs: seq<string>)
    ensures |gs| == |fs| && forall k :: 0 <= k < |fs| ==> gs[k] == SkipSpaces(fs[k])
  {
    if fs == [] then [] else [SkipSpaces(fs[0])] + SkipAll(fs[1..])
  }

  /** The records as they are read back. */
  function SkipRows(rows: seq<seq<string>>): (rs: seq<seq<string>>)
    ensures |rs| == |rows| && forall i :: 0 <= i < |rows| ==> rs[i] == SkipAll(rows[i])
  {
    if rows == [] then [] else [SkipAll(rows[0])] + SkipRows(rows[1..])
  }

  /** A field that needs no quoting: no comma, no line break, and no quote after its leading spaces. */
  predicate IsPlainField(f: string) {
    ',' !in f && '\n' !in f && '\r' !in f && (SkipSpaces(f) == [] || SkipSpaces(f)[0] != '"')
  }

  /** A record that reads back from its comma-joined line (a lone empty field would be a blank line). */
  predicate IsPlainRecord(fs: seq<string>) {
    |fs| >= 1 && fs != [""] && forall k :: 0 <= k < |fs| ==> IsPlainField(fs[k])
  }

  /** `",".join(fs)` */
  function JoinFields(fs: seq<string>): string {
    if fs == [] then ""
    else if |fs| == 1 then fs[0]
    else fs[0] + "," + JoinFields(fs[1..])
  }

  /** `"\n".join(",".join(r) for r in rows)` */
  function JoinLines(rows: seq<seq<string>>): string {
    if rows == [] then ""
    else if |rows| == 1 then JoinFields(rows[0])
    else JoinFields(rows[0]) + "\n" + JoinLines(rows[1..])
  }

  /** Characters of an unquoted field are collected until a comma or a line break. */
  lemma {:induction false} FeedUnquoted(r: Reader, g: string)
    requires r.state == InField && ',' !in g && '\n' !in g && '\r' !in g
    ensures Feed(r, g) == Ok(r.(field := r.field + g))
    decreases g
  {
    if g == [] {
      assert r.field + g == r.field;
    } else {
      var r1 := r.(field := r.field + [g[0]]);
      assert g == [g[0]] + g[1..];
      FeedStep(r, g[0], g[1..]);
      FeedUnquoted(r1, g[1..]);
      assert r1.field + g[1..] == r.field + g;
    }
  }

  /** An unquoted field that starts with neither a space nor a quote. */
  lemma {:induction false} BareFieldRead(r: Reader, f: string)
    requires AtFieldStart(r) && IsPlainField(f) && f != [] && f[0] != ' '
    ensures Feed(r, f) == Ok(r.(state := InField, field := f))
  {
    var r1 := r.(state := InField, field := [f[0]]);
    assert f == [f[0]] + f[1..];
    assert f[0] in f;
    assert r.field + [f[0]] == [f[0]];
    assert StepChar(r, f[0]) == Ok(r1);
    assert LineEnd(r1, f[0]) == r1;
    FeedStep(r, f[0], f[1..]);
    assert ',' !in f[1..] && '\n' !in f[1..] && '\r' !in f[1..];
    FeedUnquoted(r1, f[1..]);
    assert r1.field + f[1..] == f;
  }

  /** The state of the reader after a field, before the character that ends it. */
  function AfterField(r: Reader, f: string): Reader {
    r.(state := if SkipSpaces(f) == [] then StartField else InField, field := SkipSpaces(f))
  }

  /** A plain field is read without its leading spaces. */
  lemma {:induction false} PlainFieldRead(r: Reader, f: string)
    requires AtFieldStart(r) && IsPlainField(f) && f != []
    ensures Feed(r, f) == Ok(AfterField(r, f))
    decreases f
  {
    if f[0] == ' ' {
      var r1 := r.(state := StartField);
      FeedStep(r, ' ', f[1..]);
      assert [' '] + f[1..] == f;
      assert SkipSpaces(f) == SkipSpaces(f[1..]);
      if f[1..] != [] {
        assert ',' !in f[1..] && '\n' !in f[1..] && '\r' !in f[1..];
        PlainFieldRead(r1, f[1..]);
      }
    } else {
      BareFieldRead(r, f);
    }
  }

  /** The state a comma-joined line leaves the reader in, just before its line break. */
  function PendingLast(r: Reader, fs: seq<string>): Reader {
    if fs == [] then r
    else AfterField(r.(fields := r.fields + SkipAll(fs[..|fs| - 1])), fs[|fs| - 1])
  }

  /** A comma outside quotes saves the field. */
  lemma {:induction false} CommaRead(r: Reader)
    requires r.state == StartRecord || r.state == StartField || r.state == InField
    ensures Feed(r, ",") == Ok(Reader(StartField, "", r.fields + [r.field], r.records))
  {
    assert "," == [','] + [];
    FeedStep(r, ',', []);
  }

  /** A plain field followed by a comma is saved, and the next field starts. */
  lemma {:induction false} PlainFieldAndComma(r: Reader, f: string)
    requires AtFieldStart(r) && IsPlainField(f)
    ensures Feed(r, f + ",") == Ok(Reader(StartField, "", r.fields + [SkipSpaces(f)], r.records))
  {
    if f == [] {
      assert f + "," == ",";
      CommaRead(r);
    } else {
      var r1 := AfterField(r, f);
      PlainFieldRead(r, f);
      CommaRead(r1);
      FeedThen(r, f, r1, ",");
    }
  }

  /** The fields but the last, read back, after moving the first one into the prefix. */
  lemma {:induction false} SkipAllShift(pre: seq<string>, fs: seq<string>)
    requires |fs| >= 2
    ensures (pre + [SkipSpaces(fs[0])]) + SkipAll(fs[1..][..|fs[1..]| - 1]) == pre + SkipAll(fs[..|fs| - 1])
    ensures fs[1..][|fs[1..]| - 1] == fs[|fs| - 1]
  {
    assert fs[..|fs| - 1] == [fs[0]] + fs[1..][..|fs| - 2];
    assert SkipAll(fs[..|fs| - 1]) == [SkipSpaces(fs[0])] + SkipAll(fs[1..][..|fs| - 2]);
  }

  lemma {:induction false} PlainRecordRead(r: Reader, fs: seq<string>)
    requires AtFieldStart(r) && |fs| >= 1 && forall k :: 0 <= k < |fs| ==> IsPlainField(fs[k])
    requires r.state == StartRecord ==> fs != [""]
    ensures Feed(r, JoinFields(fs)) == Ok(PendingLast(r, fs))
    decreases fs
  {
    if |fs| == 1 {
      assert r.fields + SkipAll(fs[..0]) == r.fields;
      if fs[0] != [] {
        PlainFieldRead(r, fs[0]);
      }
    } else {
      var r1 := Reader(StartField, "", r.fields + [SkipSpaces(fs[0])], r.records);
      PlainFieldAndComma(r, fs[0]);
      FeedThen(r, fs[0] + ",", r1, JoinFields(fs[1..]));
      assert fs[0] + "," + JoinFields(fs[1..]) == JoinFields(fs);
      PlainRecordRead(r1, fs[1..]);
      SkipAllShift(r.fields, fs);
    }
  }

  /** Closing a plain record: the line break and the end-of-line event return it. */
  lemma {:induction false} PlainRecordEnd(r: Reader)
    requires r.state == StartField || r.state == InField
    ensures Feed(r, "\n") == Ok(Reader(StartRecord, "", [], r.records + [r.fields + [r.field]]))
    ensures EndLine(r) == Reader(StartRecord, "", [], r.records + [r.fields + [r.field]])
  {
    FeedStep(r, '\n', []);
  }

  /** The fields a pending line has collected, with its last one, are the record read back. */
  lemma {:induction false} PendingFields(r: Reader, fs: seq<string>)
    requires r.fields == [] && fs != []
    ensures var p := PendingLast(r, fs); p.fields + [p.field] == SkipAll(fs)
  {
    assert fs == fs[..|fs| - 1] + [fs[|fs| - 1]];
    assert SkipAll(fs)[..|fs| - 1] == SkipAll(fs[..|fs| - 1]);
    assert [] + SkipAll(fs[..|fs| - 1]) == SkipAll(fs[..|fs| - 1]);
    assert SkipAll(fs) == SkipAll(fs)[..|fs| - 1] + [SkipAll(fs)[|fs| - 1]];
  }

  /** The records but the last, read back, after moving the first one into the prefix. */
  lemma {:induction false} SkipRowsShift(pre: seq<seq<string>>, rows: seq<seq<string>>)
    requires |rows| >= 2
    ensures (pre + [SkipAll(rows[0])]) + SkipRows(rows[1..][..|rows[1..]| - 1]) == pre + SkipRows(rows[..|rows| - 1])
    ensures rows[1..][|rows[1..]| - 1] == rows[|rows| - 1]
  {
    assert rows[..|rows| - 1] == [rows[0]] + rows[1..][..|rows| - 2];
    assert SkipRows(rows[..|rows| - 1]) == [SkipAll(rows[0])] + SkipRows(rows[1..][..|rows| - 2]);
  }

  /** The reader after the joined text of plain `rows`, read after `recs`, just before the last line's end. */
  function AfterJoined(recs: seq<seq<string>>, rows: seq<seq<string>>): Reader
    requires |rows| >= 1
  {
    PendingLast(Reader(StartRecord, "", [], recs + SkipRows(rows[..|rows| - 1])), rows[|rows| - 1])
  }

  lemma {:induction false} PlainRecordsRead(recs: seq<seq<string>>, rows: seq<seq<string>>)
    requires |rows| >= 1 && forall i :: 0 <= i < |rows| ==> IsPlainRecord(rows[i])
    ensures Feed(Reader(StartRecord, "", [], recs), JoinLines(rows)) == Ok(AfterJoined(recs, rows))
    decreases rows
  {
    var r := Reader(StartRecord, "", [], recs);
    PlainRecordRead(r, rows[0]);
    if |rows| == 1 {
      assert recs + SkipRows(rows[..0]) == recs;
    } else {
      var r1 := PendingLast(r, rows[0]);
      var r2 := Reader(StartRecord, "", [], recs + [SkipAll(rows[0])]);
      PlainRecordEnd(r1);
      PendingFields(r, rows[0]);
      FeedLine(r, JoinFields(rows[0]), r1, r2, JoinLines(rows[1..]));
      PlainRecordsRead(recs + [SkipAll(rows[0])], rows[1..]);
      SkipRowsShift(recs, rows);
    }
  }

  /** A plain record's line is not empty and holds no line break. */
  lemma {:induction false} JoinedPlainFields(fs: seq<string>)
    requires |fs| >= 1 && forall k :: 0 <= k < |fs| ==> IsPlainField(fs[k])
    ensures '\n' !in JoinFields(fs)
    ensures fs != [""] ==> JoinFields(fs) != []
    decreases fs
  {
    if |fs| > 1 {
      JoinedPlainFields(fs[1..]);
      assert JoinFields(fs) == fs[0] + "," + JoinFields(fs[1..]);
      assert JoinFields(fs)[|fs[0]|] == ',';
    }
  }

  /** Joined plain lines end with the last line's last character. */
  lemma {:induction false} JoinedPlainLinesEnd(rows: seq<seq<string>>)
    requires |rows| >= 1 && forall i :: 0 <= i < |rows| ==> IsPlainRecord(rows[i])
    ensures var s := JoinLines(rows); s != [] && s[|s| - 1] != '\n'
    decreases rows
  {
    if |rows| > 1 {
      JoinedPlainLinesEnd(rows[1..]);
      assert JoinLines(rows) == JoinFields(rows[0]) + "\n" + JoinLines(rows[1..]);
    } else {
      JoinedPlainFields(rows[0]);
      var s := JoinFields(rows[0]);
      assert s[|s| - 1] in s;
    }
  }

  /** The records but the last, read back, and then the last one. */
  lemma {:induction false} SkipRowsSnoc(rows: seq<seq<string>>)
    requires rows != []
    ensures SkipRows(rows[..|rows| - 1]) + [SkipAll(rows[|rows| - 1])] == SkipRows(rows)
  {
    var n := |rows|;
    var l := SkipRows(rows[..n - 1]) + [SkipAll(rows[n - 1])];
    forall i | 0 <= i < n
      ensures l[i] == SkipRows(rows)[i]
    {
      if i < n - 1 {
        assert l[i] == SkipRows(rows[..n - 1])[i];
        assert rows[..n - 1][i] == rows[i];
      }
    }
  }

  lemma {:induction false} JoinedClose(recs: seq<seq<string>>, rows: seq<seq<string>>)
    requires |rows| >= 1 && |rows[|rows| - 1]| >= 1
    ensures EndLine(AfterJoined(recs, rows)) == Reader(StartRecord, "", [], recs + SkipRows(rows))
  {
    var last := rows[|rows| - 1];
    var r0 := Reader(StartRecord, "", [], recs + SkipRows(rows[..|rows| - 1]));
    var r := AfterJoined(recs, rows);
    PlainRecordEnd(r);
    PendingFields(r0, last);
    SkipRowsSnoc(rows);
  }

  /**
    Plain records joined by commas and line breaks are read back, each
    field without the spaces it starts with.
   */
  lemma {:induction false} ReadJoinedLines(rows: seq<seq<string>>)
    requires forall i :: 0 <= i < |rows| ==> IsPlainRecord(rows[i])
    ensures ReadRecords(JoinLines(rows)) == Ok(SkipRows(rows))
  {
    if rows != [] {
      var s, r, out := JoinLines(rows), AfterJoined([], rows), SkipRows(rows);
      assert Feed(Initial, s) == Ok(r) by {
        PlainRecordsRead([], rows);
      }
      assert s != [] && s[|s| - 1] != '\n' by {
        JoinedPlainLinesEnd(rows);
      }
      assert EndLine(r) == Reader(StartRecord, "", [], out) by {
        JoinedClose([], rows);
        assert [] + out == out;
      }
      ReadCompletedRecords(s, r, out);
    }
  }
}
