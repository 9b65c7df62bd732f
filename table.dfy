/**
  `parse_csv(text, has_header)`: normalise line endings, strip the text,
  read it as CSV records, strip every field and drop the records with no
  content, then make the table rectangular.  With a header row the first
  kept record names the columns and any extra column is named `col_<n>`;
  without one every column is named `col_<n>`.  Short rows are padded on
  the right with empty fields and no row is ever cut.
 */
module Table {
  import opened Wrappers
  import opened Text
  import CsvReader

  datatype Table = Table(headers: seq<string>, rows: seq<seq<string>>)

  const Empty := Table([], [])

  // ---------------------------------------------------------------------
  // Reading and filtering records

  /** The text that reaches the reader: line endings normalised, then stripped. */
  function Content(text: string): (c: string)
    ensures '\r' !in c
  {
    var n := NormalizeNewlines(text);
    NormalizeNewlinesSpec(text);
    Strip(n)
  }

  /** The records `csv.reader` yields for the content (it never fails on it). */
  function Records(text: string): (recs: seq<seq<string>>)
    ensures CsvReader.ReadRecords(Content(text)) == Ok(recs)
    ensures IsBlank(NormalizeNewlines(text)) ==> recs == []
  {
    var c := Content(text);
    CsvReader.ReadRecords(c).value
  }

  /** `any(c.strip() for c in r)`: some field is not blank. */
  predicate HasContent(r: seq<string>)
    ensures HasContent(r) <==> exists k :: 0 <= k < |r| && !IsBlank(r[k])
  {
    exists k :: 0 <= k < |r| && Strip(r[k]) != []
  }

  /** `list(map(lambda s: s.strip(), r))`: as many fields, each stripped. */
  function StripAll(r: seq<string>): (s: seq<string>)
    ensures |s| == |r| && forall k :: 0 <= k < |s| ==> IsStripped(s[k])
  {
    seq(|r|, k requires 0 <= k < |r| => Strip(r[k]))
  }

  /** A row as `parse_csv` keeps it: not empty, some content, every field stripped. */
  predicate IsKeptRow(r: seq<string>) {
    |r| >= 1 && HasContent(r) && forall k :: 0 <= k < |r| ==> IsStripped(r[k])
  }

  /** The records with content, each with its fields stripped, in order. */
  function KeptRows(recs: seq<seq<string>>): (rows: seq<seq<string>>)
    ensures |rows| <= |recs|
    ensures forall i :: 0 <= i < |rows| ==> IsKeptRow(rows[i])
  {
    if recs == [] then []
    else
      var r := recs[0];
      if HasContent(r) then
        StripAllKept(r);
        [StripAll(r)] + KeptRows(recs[1..])
      else KeptRows(recs[1..])
  }

  /** Stripping the fields of a row with content gives a kept row. */
  lemma {:induction false} StripAllKept(r: seq<string>)
    requires HasContent(r)
    ensures IsKeptRow(StripAll(r))
  {
    var k :| 0 <= k < |r| && Strip(r[k]) != [];
    assert Strip(StripAll(r)[k]) == Strip(r[k]);
  }

  /** The rows `parse_csv` works on (app/main.py:26). */
  function KeptRecords(text: string): (rows: seq<seq<string>>)
    ensures |rows| <= |Records(text)|
    ensures forall i :: 0 <= i < |rows| ==> IsKeptRow(rows[i])
  {
    KeptRows(Records(text))
  }

  // ---------------------------------------------------------------------
  // Rectangular shape

  /** The length of the longest row (`max(len(r) for r in rows)`), 0 for no rows. */
  function MaxLen(rows: seq<seq<string>>): (m: nat)
    ensures forall i :: 0 <= i < |rows| ==> |rows[i]| <= m
    ensures rows != [] ==> exists i :: 0 <= i < |rows| && |rows[i]| == m
    ensures rows == [] ==> m == 0
  {
    if rows == [] then 0
    else
      var m := MaxLen(rows[1..]);
      if |rows[0]| >= m then |rows[0]|
      else
        var i :| 0 <= i < |rows[1..]| && |rows[1..][i]| == m;
        assert |rows[i + 1]| == m;
        m
  }

  /** `[""] * n`, which is empty for a negative `n`. */
  function Blanks(n: int): (r: seq<string>)
    ensures |r| == if n <= 0 then 0 else n
    ensures forall k :: 0 <= k < |r| ==> r[k] == ""
  {
    if n <= 0 then [] else seq(n, _ => "")
  }

  /** `r + [""] * (width - len(r))` */
  function Pad(r: seq<string>, width: nat): (p: seq<string>)
    ensures |p| == if |r| <= width then width else |r|
    ensures p[..|r|] == r
    ensures forall k :: |r| <= k < |p| ==> p[k] == ""
  {
    r + Blanks(width - |r|)
  }

  /** Padding every row: as many rows, each no shorter than `width` and starting with its original. */
  function PadAll(rows: seq<seq<string>>, width: nat): (ps: seq<seq<string>>)
    ensures |ps| == |rows|
    ensures forall i :: 0 <= i < |rows| ==> width <= |ps[i]| && |rows[i]| <= |ps[i]| && ps[i][..|rows[i]|] == rows[i]
    ensures forall i :: 0 <= i < |rows| && |rows[i]| <= width ==> |ps[i]| == width
  {
    seq(|rows|, i requires 0 <= i < |rows| => Pad(rows[i], width))
  }

  /** `f"col_{i+1}"` */
  function ColName(i: nat): (n: string)
    ensures |n| > 4 && n[..4] == "col_" && n[4..] == NatToString(i + 1)
  {
    "col_" + NatToString(i + 1)
  }

  /** `[f"col_{i+1}" for i in range(lo, hi)]` */
  function ColNames(lo: nat, hi: nat): (ns: seq<string>)
    ensures |ns| == if lo <= hi then hi - lo else 0
    ensures forall k :: 0 <= k < |ns| ==> |ns[k]| > 4 && ns[k][..4] == "col_"
  {
    var ns := seq(if lo <= hi then hi - lo else 0, k requires 0 <= k => ColName(lo + k));
    assert forall k :: 0 <= k < |ns| ==> ns[k] == ColName(lo + k);
    ns
  }

  function Max(a: nat, b: nat): nat {
    if a >= b then a else b
  }

  /** The table built from the kept rows: every row has as many fields as there are headers. */
  function Shape(rows: seq<seq<string>>, hasHeader: bool): (t: Table)
    ensures forall i :: 0 <= i < |t.rows| ==> |t.rows[i]| == |t.headers|
  {
    if rows == [] then Empty
    else if hasHeader then
      var headers := rows[0];
      var data := rows[1..];
      var width := if data != [] then Max(|headers|, MaxLen(data)) else |headers|;
      Table(headers + ColNames(|headers|, width), PadAll(data, width))
    else
      var width := MaxLen(rows);
      Table(ColNames(0, width), PadAll(rows, width))
  }

  /**
    `parse_csv(text, has_header)`: a rectangular table, which has no
    headers only when it has no rows either.
   */
  function ParseCsv(text: string, hasHeader: bool): (t: Table)
    ensures forall i :: 0 <= i < |t.rows| ==> |t.rows[i]| == |t.headers|
    ensures t.headers == [] <==> t == Empty
  {
    var rows := KeptRecords(text);
    ShapeEmpty(rows, hasHeader);
    Shape(rows, hasHeader)
  }

  // ---------------------------------------------------------------------
  // Row filtering

  /** Filtering distributes over concatenation, so kept rows keep their input order. */
  lemma {:induction false} KeptRowsAppend(a: seq<seq<string>>, b: seq<seq<string>>)
    ensures KeptRows(a + b) == KeptRows(a) + KeptRows(b)
    decreases |a|
  {
    if a == [] {
      assert a + b == b;
    } else {
      assert (a + b)[1..] == a[1..] + b;
      KeptRowsAppend(a[1..], b);
    }
  }

  /** One record is kept, stripped field by field, exactly when one of its fields is not blank. */
  lemma {:induction false} KeptRowsOne(r: seq<string>)
    ensures KeptRows([r]) == if HasContent(r) then [StripAll(r)] else []
    ensures HasContent(r) <==> exists k :: 0 <= k < |r| && !IsBlank(r[k])
  {
    assert [r][1..] == [];
    if HasContent(r) {
      assert [StripAll(r)] + [] == [StripAll(r)];
    }
  }

  /** No record is kept exactly when every field of every record is blank. */
  lemma {:induction false} KeptRowsNone(recs: seq<seq<string>>)
    ensures KeptRows(recs) == [] <==> forall i, k :: 0 <= i < |recs| && 0 <= k < |recs[i]| ==> IsBlank(recs[i][k])
    decreases |recs|
  {
    if recs != [] {
      KeptRowsNone(recs[1..]);
      if !HasContent(recs[0]) {
        assert forall i :: 1 <= i < |recs| ==> recs[i] == recs[1..][i - 1];
      } else {
        var k :| 0 <= k < |recs[0]| && Strip(recs[0][k]) != [];
        assert !IsBlank(recs[0][k]);
      }
    }
  }

  // ---------------------------------------------------------------------
  // Properties of parse_csv

  /** Blank text (after normalisation and strip) gives no headers and no rows. */
  lemma {:induction false} ParseCsvBlank(text: string, hasHeader: bool)
    requires IsBlank(NormalizeNewlines(text))
    ensures ParseCsv(text, hasHeader) == Empty
  {
    assert Content(text) == [];
    assert CsvReader.ReadRecords([]) == Ok([]);
  }

  /**
    The table is empty exactly when every field of every record the reader
    yields is blank.
   */
  lemma {:induction false} ParseCsvEmpty(text: string, hasHeader: bool)
    ensures var recs := Records(text);
      ParseCsv(text, hasHeader) == Empty
      <==> forall i, k :: 0 <= i < |recs| && 0 <= k < |recs[i]| ==> IsBlank(recs[i][k])
  {
    KeptRowsNone(Records(text));
    ShapeEmpty(KeptRecords(text), hasHeader);
  }

  /** There are no headers exactly when no record is kept, and then there are no rows either. */
  lemma {:induction false} ShapeEmpty(rows: seq<seq<string>>, hasHeader: bool)
    requires forall i :: 0 <= i < |rows| ==> |rows[i]| >= 1
    ensures var t := Shape(rows, hasHeader);
      (t.headers == [] <==> rows == []) && (rows == [] ==> t == Empty)
  {
    if rows != [] && !hasHeader {
      assert |rows[0]| <= MaxLen(rows);
    }
  }

  /** `width` bounds every kept row, and some kept row reaches it, so no row is cut. */
  lemma {:induction false} ShapeWidth(rows: seq<seq<string>>, hasHeader: bool)
    ensures var t := Shape(rows, hasHeader);
      && (forall i :: 0 <= i < |rows| ==> |rows[i]| <= |t.headers|)
      && (rows != [] ==> exists i :: 0 <= i < |rows| && |rows[i]| == |t.headers|)
  {
    var t := Shape(rows, hasHeader);
    if rows != [] && hasHeader {
      var data := rows[1..];
      forall i | 0 <= i < |rows|
        ensures |rows[i]| <= |t.headers|
      {
        if i > 0 {
          assert rows[i] == data[i - 1];
        }
      }
      if data != [] && MaxLen(data) > |rows[0]| {
        var i :| 0 <= i < |data| && |data[i]| == MaxLen(data);
        assert rows[i + 1] == data[i];
      }
    }
  }

  /** The data rows are the kept records after the header (or all of them), in order, each padded with empty fields only. */
  lemma {:induction false} ShapeRows(rows: seq<seq<string>>, hasHeader: bool)
    ensures var t := Shape(rows, hasHeader);
      var data := if hasHeader && rows != [] then rows[1..] else rows;
      && |t.rows| == |data|
      && (forall i :: 0 <= i < |data| ==> |data[i]| <= |t.rows[i]| && t.rows[i][..|data[i]|] == data[i])
      && (forall i, k :: 0 <= i < |data| && |data[i]| <= k < |t.rows[i]| ==> t.rows[i][k] == "")
  {
    var t := Shape(rows, hasHeader);
    var data := if hasHeader && rows != [] then rows[1..] else rows;
    ShapeWidth(rows, hasHeader);
    forall i | 0 <= i < |data|
      ensures |data[i]| <= |t.rows[i]| && t.rows[i][..|data[i]|] == data[i]
    {
      if hasHeader && rows != [] {
        assert data[i] == rows[i + 1];
      }
    }
  }

  /** With a header row the headers are that row followed by `col_<h+1>..col_<width>`; without one they are `col_1..col_<width>`. */
  lemma {:induction false} ShapeHeaders(rows: seq<seq<string>>, hasHeader: bool)
    ensures var t := Shape(rows, hasHeader);
      var h := if hasHeader && rows != [] then |rows[0]| else 0;
      && h <= |t.headers|
      && (hasHeader && rows != [] ==> t.headers[..h] == rows[0])
      && (forall k :: h <= k < |t.headers| ==> t.headers[k] == ColName(k))
  {
    var t := Shape(rows, hasHeader);
    ShapeWidth(rows, hasHeader);
    if hasHeader && rows != [] {
      assert t.headers[..|rows[0]|] == rows[0];
    }
  }

  /** A header row alone gives that header and no rows. */
  lemma {:induction false} ShapeHeaderOnly(header: seq<string>)
    ensures Shape([header], true) == Table(header, [])
  {
    assert [header][1..] == [];
    assert header + ColNames(|header|, |header|) == header;
  }

  /** The synthesised column names are pairwise distinct. */
  lemma {:induction false} ColNameInjective(i: nat, j: nat)
    ensures ColName(i) == ColName(j) ==> i == j
  {
    if ColName(i) == ColName(j) {
      assert NatToString(i + 1) == ColName(i)[4..];
      assert NatToString(j + 1) == ColName(j)[4..];
      NatToStringInjective(i + 1, j + 1);
    }
  }

  /** The names `col_<lo+1>..col_<hi>` are pairwise distinct. */
  lemma {:induction false} ColNamesDistinct(lo: nat, hi: nat)
    ensures var ns := ColNames(lo, hi);
      forall a, b :: 0 <= a < b < |ns| ==> ns[a] != ns[b]
  {
    var ns := ColNames(lo, hi);
    forall a, b | 0 <= a < b < |ns|
      ensures ns[a] != ns[b]
    {
      ColNameInjective(lo + a, lo + b);
    }
  }

  // ---------------------------------------------------------------------
  // Round trip: a rectangular table of stripped, plain fields written as
  // comma-joined lines is parsed back to itself.

  /** Rows with some content each, whose fields are stripped and need no quoting. */
  predicate IsPlainRows(rows: seq<seq<string>>) {
    && rows != []
    && (forall i :: 0 <= i < |rows| ==> CsvReader.IsPlainRecord(rows[i]) && HasContent(rows[i]))
    && (forall i, k :: 0 <= i < |rows| && 0 <= k < |rows[i]| ==> IsStripped(rows[i][k]))
  }

  /** Plain rows that all have one width. */
  predicate IsPlainTable(rows: seq<seq<string>>) {
    IsPlainRows(rows) && forall i :: 0 <= i < |rows| ==> |rows[i]| == |rows[0]|
  }

  lemma StripAllStripped(r: seq<string>)
    requires forall k :: 0 <= k < |r| ==> IsStripped(r[k])
    ensures StripAll(r) == r
  {
  }

  /** Records that all have content and stripped fields are kept as they are. */
  lemma {:induction false} KeptRowsIdentity(recs: seq<seq<string>>)
    requires forall i :: 0 <= i < |recs| ==> HasContent(recs[i])
    requires forall i, k :: 0 <= i < |recs| && 0 <= k < |recs[i]| ==> IsStripped(recs[i][k])
    ensures KeptRows(recs) == recs
    decreases |recs|
  {
    if recs != [] {
      StripAllStripped(recs[0]);
      KeptRowsIdentity(recs[1..]);
      assert [recs[0]] + recs[1..] == recs;
    }
  }

  /** The joined fields of a plain record start and end with a character that is not whitespace. */
  lemma {:induction false} JoinFieldsStripped(fs: seq<string>)
    requires |fs| >= 1 && fs != [""]
    requires forall k :: 0 <= k < |fs| ==> IsStripped(fs[k])
    ensures var s := CsvReader.JoinFields(fs); s != [] && !IsSpace(s[0]) && !IsSpace(s[|s| - 1])
    decreases |fs|
  {
    var s := CsvReader.JoinFields(fs);
    if |fs| > 1 {
      var rest := CsvReader.JoinFields(fs[1..]);
      assert s == fs[0] + "," + rest;
      if fs[1..] == [""] {
        assert rest == "";
      } else {
        JoinFieldsStripped(fs[1..]);
      }
      assert s[|s| - 1] == (if rest == [] then ',' else rest[|rest| - 1]);
      assert s[0] == (if fs[0] == [] then ',' else fs[0][0]);
    }
  }

  lemma {:induction false} JoinLinesStripped(rows: seq<seq<string>>)
    requires rows != []
    requires forall i :: 0 <= i < |rows| ==> CsvReader.IsPlainRecord(rows[i])
    requires forall i, k :: 0 <= i < |rows| && 0 <= k < |rows[i]| ==> IsStripped(rows[i][k])
    ensures IsStripped(CsvReader.JoinLines(rows))
    decreases |rows|
  {
    var s := CsvReader.JoinLines(rows);
    JoinFieldsStripped(rows[0]);
    if |rows| > 1 {
      JoinLinesStripped(rows[1..]);
      var first := CsvReader.JoinFields(rows[0]);
      var rest := CsvReader.JoinLines(rows[1..]);
      assert s == first + "\n" + rest;
      assert s[0] == first[0];
      assert s[|s| - 1] == rest[|rest| - 1];
    }
  }

  lemma {:induction false} JoinLinesNoCr(rows: seq<seq<string>>)
    requires forall i :: 0 <= i < |rows| ==> CsvReader.IsPlainRecord(rows[i])
    ensures '\r' !in CsvReader.JoinLines(rows)
    decreases |rows|
  {
    if rows != [] {
      JoinFieldsNoCr(rows[0]);
      if |rows| > 1 {
        JoinLinesNoCr(rows[1..]);
      }
    }
  }

  lemma {:induction false} JoinFieldsNoCr(fs: seq<string>)
    requires forall k :: 0 <= k < |fs| ==> CsvReader.IsPlainField(fs[k])
    ensures '\r' !in CsvReader.JoinFields(fs)
    decreases |fs|
  {
    if |fs| > 1 {
      JoinFieldsNoCr(fs[1..]);
    }
  }

  /**
    Comma-joined lines that need no stripping, of records that read back
    (less the spaces skipped at the start of each field) as rows `parse_csv`
    keeps, give exactly those rows.
   */
  lemma {:induction false} JoinedKept(rows: seq<seq<string>>)
    requires forall i :: 0 <= i < |rows| ==> CsvReader.IsPlainRecord(rows[i])
    requires IsStripped(CsvReader.JoinLines(rows))
    requires forall i :: 0 <= i < |rows| ==> IsKeptRow(CsvReader.SkipRows(rows)[i])
    ensures KeptRecords(CsvReader.JoinLines(rows)) == CsvReader.SkipRows(rows)
  {
    var s := CsvReader.JoinLines(rows);
    var read := CsvReader.SkipRows(rows);
    JoinLinesNoCr(rows);
    NormalizeNewlinesSpec(s);
    assert Content(s) == s;
    CsvReader.ReadJoinedLines(rows);
    assert forall i :: 0 <= i < |read| ==> IsKeptRow(read[i]);
    KeptRowsIdentity(read);
  }

  /** The kept records of plain rows written as comma-joined lines are those rows. */
  lemma {:induction false} JoinedKeptRecords(rows: seq<seq<string>>)
    requires IsPlainRows(rows)
    ensures KeptRecords(CsvReader.JoinLines(rows)) == rows
  {
    JoinLinesStripped(rows);
    SkipRowsStripped(rows);
    JoinedKept(rows);
  }

  /** Stripped fields start with no space for the reader to skip. */
  lemma {:induction false} SkipRowsStripped(rows: seq<seq<string>>)
    requires forall i, k :: 0 <= i < |rows| && 0 <= k < |rows[i]| ==> IsStripped(rows[i][k])
    ensures CsvReader.SkipRows(rows) == rows
  {
    forall i | 0 <= i < |rows|
      ensures CsvReader.SkipAll(rows[i]) == rows[i]
    {
      forall k | 0 <= k < |rows[i]|
        ensures CsvReader.SkipSpaces(rows[i][k]) == rows[i][k]
      {
        assert IsStripped(rows[i][k]);
      }
    }
  }

  /** Padding to a width no row exceeds and no row falls short of changes nothing. */
  lemma {:induction false} PadAllExact(rows: seq<seq<string>>, w: nat)
    requires forall i :: 0 <= i < |rows| ==> |rows[i]| == w
    ensures PadAll(rows, w) == rows
  {
    forall i | 0 <= i < |rows|
      ensures Pad(rows[i], w) == rows[i]
    {
      assert Blanks(w - |rows[i]|) == [];
    }
  }

  /** A table whose rows already share one width is built unchanged. */
  lemma {:induction false} ShapeRectangularRows(rows: seq<seq<string>>)
    requires rows != [] && forall i :: 0 <= i < |rows| ==> |rows[i]| == |rows[0]|
    ensures Shape(rows, true) == Table(rows[0], rows[1..])
    ensures Shape(rows, false) == Table(ColNames(0, |rows[0]|), rows)
  {
    var w := |rows[0]|;
    var data := rows[1..];
    assert forall i :: 0 <= i < |data| ==> data[i] == rows[i + 1];
    if data != [] {
      var i :| 0 <= i < |data| && |data[i]| == MaxLen(data);
    }
    assert ColNames(w, w) == [];
    assert rows[0] + [] == rows[0];
    PadAllExact(data, w);
    var i :| 0 <= i < |rows| && |rows[i]| == MaxLen(rows);
    PadAllExact(rows, w);
  }

  /** With a header row, the text of a plain table parses back to its header and data rows. */
  lemma {:induction false} ParseJoinedWithHeader(rows: seq<seq<string>>)
    requires IsPlainTable(rows)
    ensures ParseCsv(CsvReader.JoinLines(rows), true) == Table(rows[0], rows[1..])
  {
    JoinedKeptRecords(rows);
    ShapeRectangularRows(rows);
  }

  /** Without a header row, the text of a plain table parses back to all its rows under `col_1..col_<width>`. */
  lemma {:induction false} ParseJoinedWithoutHeader(rows: seq<seq<string>>)
    requires IsPlainTable(rows)
    ensures ParseCsv(CsvReader.JoinLines(rows), false) == Table(ColNames(0, |rows[0]|), rows)
  {
    JoinedKeptRecords(rows);
    ShapeRectangularRows(rows);
  }

  /** The ragged table `A,B / 1 / 2,3,4` with a header row (width 3 comes from the last row). */
  lemma {:induction false} RaggedExample()
    ensures ParseCsv("A,B\n1\n2,3,4", true) == Table(["A", "B", "col_3"], [["1", "", ""], ["2", "3", "4"]])
  {
    var rows := [["A", "B"], ["1"], ["2", "3", "4"]];
    RaggedText(rows);
    RaggedRowsPlain(rows);
    JoinedKeptRecords(rows);
    RaggedShape(rows);
  }

  lemma {:induction false} RaggedText(rows: seq<seq<string>>)
    requires rows == [["A", "B"], ["1"], ["2", "3", "4"]]
    ensures CsvReader.JoinLines(rows) == "A,B\n1\n2,3,4"
  {
    assert CsvReader.JoinFields(rows[0]) == "A,B";
    assert CsvReader.JoinFields(["3", "4"]) == "3,4";
    assert CsvReader.JoinFields(rows[2]) == "2,3,4";
    assert CsvReader.JoinLines(rows[2..]) == "2,3,4";
    assert CsvReader.JoinLines(rows[1..]) == "1\n2,3,4";
  }

  lemma {:induction false} RaggedRowsPlain(rows: seq<seq<string>>)
    requires rows == [["A", "B"], ["1"], ["2", "3", "4"]]
    ensures IsPlainRows(rows)
  {
    forall i | 0 <= i < |rows|
      ensures CsvReader.IsPlainRecord(rows[i]) && HasContent(rows[i])
      ensures forall k :: 0 <= k < |rows[i]| ==> IsStripped(rows[i][k])
    {
      SimpleRow(rows[i]);
    }
  }

  /** A row of one-character letter or digit fields is plain. */
  lemma {:induction false} SimpleRow(row: seq<string>)
    requires row != []
    requires forall k :: 0 <= k < |row| ==> |row[k]| == 1 && ('0' <= row[k][0] <= '9' || 'A' <= row[k][0] <= 'Z')
    ensures CsvReader.IsPlainRecord(row) && HasContent(row)
    ensures forall k :: 0 <= k < |row| ==> IsStripped(row[k])
  {
    assert Strip(row[0]) == row[0];
  }

  lemma {:induction false} RaggedShape(rows: seq<seq<string>>)
    requires rows == [["A", "B"], ["1"], ["2", "3", "4"]]
    ensures Shape(rows, true) == Table(["A", "B", "col_3"], [["1", "", ""], ["2", "3", "4"]])
  {
    assert MaxLen(rows[1..]) == 3;
    assert ColName(2) == "col_3" by {
      assert NatToString(3) == "3";
    }
    assert ColNames(2, 3) == ["col_3"];
    assert Pad(["1"], 3) == ["1", "", ""] by {
      assert Blanks(2) == ["", ""];
    }
    assert Pad(["2", "3", "4"], 3) == ["2", "3", "4"] by {
      assert Blanks(0) == [];
    }
    assert PadAll(rows[1..], 3) == [["1", "", ""], ["2", "3", "4"]];
  }

  // ---------------------------------------------------------------------
  // A space after each comma is skipped (`skipinitialspace`).

  /** One space put before each field. */
  function SpaceEach(fs: seq<string>): (gs: seq<string>)
    ensures |gs| == |fs| && forall k :: 0 <= k < |fs| ==> gs[k] == " " + fs[k]
  {
    if fs == [] then [] else [" " + fs[0]] + SpaceEach(fs[1..])
  }

  /** The fields of a record, each after the first preceded by one space, as in `a, b, c`. */
  function SpaceAfterCommas(fs: seq<string>): (gs: seq<string>)
    ensures |gs| == |fs|
    ensures fs != [] ==> gs[0] == fs[0]
    ensures forall k :: 1 <= k < |fs| ==> gs[k] == " " + fs[k]
  {
    if fs == [] then [] else [fs[0]] + SpaceEach(fs[1..])
  }

  function SpaceRows(rows: seq<seq<string>>): (rs: seq<seq<string>>)
    ensures |rs| == |rows| && forall i :: 0 <= i < |rows| ==> rs[i] == SpaceAfterCommas(rows[i])
  {
    if rows == [] then [] else [SpaceAfterCommas(rows[0])] + SpaceRows(rows[1..])
  }

  /** A space before a stripped plain field is skipped and the field stays plain; before an empty field it is a lone space, read back as empty. */
  lemma {:induction false} SpacedField(f: string)
    requires CsvReader.IsPlainField(f) && IsStripped(f)
    ensures CsvReader.IsPlainField(" " + f) && CsvReader.SkipSpaces(" " + f) == f
  {
    assert (" " + f)[1..] == f;
    assert CsvReader.SkipSpaces(f) == f;
  }

  lemma {:induction false} SpacedRow(fs: seq<string>)
    requires IsKeptRow(fs) && CsvReader.IsPlainRecord(fs)
    ensures CsvReader.IsPlainRecord(SpaceAfterCommas(fs))
    ensures CsvReader.SkipAll(SpaceAfterCommas(fs)) == fs
  {
    var gs := SpaceAfterCommas(fs);
    assert CsvReader.SkipSpaces(fs[0]) == fs[0];
    forall k | 1 <= k < |fs|
      ensures CsvReader.IsPlainField(gs[k]) && CsvReader.SkipSpaces(gs[k]) == fs[k]
    {
      SpacedField(fs[k]);
    }
  }

  function Last<T>(s: seq<T>): T
    requires s != []
  {
    s[|s| - 1]
  }

  /** Joined fields start with the first field's first character, or with the comma after an empty first field. */
  lemma {:induction false} JoinFieldsFirst(fs: seq<string>)
    requires |fs| >= 1 && fs != [""]
    ensures CsvReader.JoinFields(fs) != []
    ensures CsvReader.JoinFields(fs)[0] == if fs[0] == [] then ',' else fs[0][0]
  {
    if |fs| > 1 {
      assert CsvReader.JoinFields(fs) == fs[0] + ("," + CsvReader.JoinFields(fs[1..]));
    } else {
      assert fs == [fs[0]];
    }
  }

  /** Joined fields end with the last field's last character, or with the comma before an empty last field. */
  lemma {:induction false} JoinFieldsLast(fs: seq<string>)
    requires |fs| >= 1 && fs != [""]
    ensures CsvReader.JoinFields(fs) != []
    ensures Last(CsvReader.JoinFields(fs)) == if Last(fs) == [] then ',' else Last(Last(fs))
    decreases |fs|
  {
    if |fs| > 1 {
      assert Last(fs[1..]) == Last(fs);
      if fs[1..] != [""] {
        JoinFieldsLast(fs[1..]);
      } else {
        assert CsvReader.JoinFields(fs[1..]) == "";
      }
      assert CsvReader.JoinFields(fs) == (fs[0] + ",") + CsvReader.JoinFields(fs[1..]);
    } else {
      assert fs == [fs[0]];
    }
  }

  /** Joined lines start as their first line does. */
  lemma {:induction false} JoinLinesFirst(rows: seq<seq<string>>)
    requires rows != [] && |rows[0]| >= 1 && rows[0] != [""]
    ensures CsvReader.JoinLines(rows) != []
    ensures CsvReader.JoinLines(rows)[0] == if rows[0][0] == [] then ',' else rows[0][0][0]
  {
    JoinFieldsFirst(rows[0]);
    if |rows| > 1 {
      assert CsvReader.JoinLines(rows) == CsvReader.JoinFields(rows[0]) + ("\n" + CsvReader.JoinLines(rows[1..]));
    }
  }

  /** Joined lines end as their last line does. */
  lemma {:induction false} JoinLinesLast(rows: seq<seq<string>>)
    requires rows != [] && |Last(rows)| >= 1 && Last(rows) != [""]
    ensures CsvReader.JoinLines(rows) != []
    ensures Last(CsvReader.JoinLines(rows)) == if Last(Last(rows)) == [] then ',' else Last(Last(Last(rows)))
    decreases |rows|
  {
    if |rows| > 1 {
      assert Last(rows[1..]) == Last(rows);
      JoinLinesLast(rows[1..]);
      assert CsvReader.JoinLines(rows) == (CsvReader.JoinFields(rows[0]) + "\n") + CsvReader.JoinLines(rows[1..]);
    } else {
      JoinFieldsLast(rows[0]);
    }
  }

  /** Joined lines are stripped when the first field does not start, and the last field does not end, with whitespace. */
  lemma {:induction false} JoinLinesEnds(rows: seq<seq<string>>)
    requires rows != [] && CsvReader.IsPlainRecord(rows[0]) && CsvReader.IsPlainRecord(Last(rows))
    requires rows[0][0] == [] || !IsSpace(rows[0][0][0])
    requires Last(Last(rows)) == [] || !IsSpace(Last(Last(Last(rows))))
    ensures CsvReader.JoinLines(rows) != [] && IsStripped(CsvReader.JoinLines(rows))
  {
    JoinLinesFirst(rows);
    JoinLinesLast(rows);
  }

  /** A record with the lone space of an empty last field removed. */
  function TrimSpace(r: seq<string>): (t: seq<string>)
    ensures |t| == |r| && forall k :: 0 <= k < |r| - 1 ==> t[k] == r[k]
    ensures r != [] ==> Last(t) == if |r| >= 2 && Last(r) == " " then "" else Last(r)
  {
    if |r| >= 2 && Last(r) == " " then r[..|r| - 1] + [""] else r
  }

  /**
    The rows with the lone space of an empty last field removed: what is
    left of their joined text once `strip()` has taken its trailing space.
   */
  function TrimLast(rows: seq<seq<string>>): (ts: seq<seq<string>>)
    requires rows != []
    ensures |ts| == |rows| && forall i :: 0 <= i < |rows| - 1 ==> ts[i] == rows[i]
    ensures Last(ts) == TrimSpace(Last(rows))
  {
    rows[..|rows| - 1] + [TrimSpace(Last(rows))]
  }

  /** Joined fields ending in a lone space are the fields ending in an empty one, then that space. */
  lemma {:induction false} JoinFieldsTrail(fs: seq<string>)
    requires |fs| >= 2 && Last(fs) == " "
    ensures CsvReader.JoinFields(fs) == CsvReader.JoinFields(fs[..|fs| - 1] + [""]) + " "
    decreases |fs|
  {
    var gs := fs[..|fs| - 1] + [""];
    if |fs| == 2 {
      assert fs[1..] == [" "] && gs[1..] == [""];
    } else {
      assert gs[1..] == fs[1..][..|fs| - 2] + [""];
      assert Last(fs[1..]) == " ";
      JoinFieldsTrail(fs[1..]);
      assert CsvReader.JoinFields(gs) == fs[0] + "," + CsvReader.JoinFields(gs[1..]);
    }
  }

  /** The same for joined lines whose last line ends in a lone space. */
  lemma {:induction false} JoinLinesTrail(rows: seq<seq<string>>)
    requires rows != [] && |Last(rows)| >= 2 && Last(Last(rows)) == " "
    ensures CsvReader.JoinLines(rows) == CsvReader.JoinLines(TrimLast(rows)) + " "
    decreases |rows|
  {
    var ts := TrimLast(rows);
    if |rows| == 1 {
      assert ts == [Last(ts)];
      JoinFieldsTrail(rows[0]);
    } else {
      assert Last(rows[1..]) == Last(rows);
      assert ts[1..] == TrimLast(rows[1..]);
      JoinLinesTrail(rows[1..]);
      assert ts[0] == rows[0];
      assert CsvReader.JoinLines(ts) == CsvReader.JoinFields(rows[0]) + "\n" + CsvReader.JoinLines(ts[1..]);
    }
  }

  /** Removing the lone space keeps a record plain and changes nothing the reader returns. */
  lemma {:induction false} TrimSpaceRead(r: seq<string>)
    requires CsvReader.IsPlainRecord(r)
    ensures CsvReader.IsPlainRecord(TrimSpace(r))
    ensures CsvReader.SkipAll(TrimSpace(r)) == CsvReader.SkipAll(r)
  {
    if |r| >= 2 && Last(r) == " " {
      assert " "[1..] == "";
      assert CsvReader.SkipSpaces(" ") == "";
    }
  }

  /** The same for the rows whose last record is trimmed. */
  lemma {:induction false} TrimLastRead(rows: seq<seq<string>>)
    requires rows != [] && forall i :: 0 <= i < |rows| ==> CsvReader.IsPlainRecord(rows[i])
    ensures forall i :: 0 <= i < |rows| ==> CsvReader.IsPlainRecord(TrimLast(rows)[i])
    ensures CsvReader.SkipRows(TrimLast(rows)) == CsvReader.SkipRows(rows)
  {
    var ts := TrimLast(rows);
    var n := |rows| - 1;
    TrimSpaceRead(rows[n]);
    assert ts[n] == TrimSpace(rows[n]);
    forall i | 0 <= i < |rows|
      ensures CsvReader.IsPlainRecord(ts[i]) && CsvReader.SkipAll(ts[i]) == CsvReader.SkipAll(rows[i])
    {
    }
  }

  /**
    Writing a space after every comma of a table of plain fields changes
    nothing: the reader skips the spaces, a lone space before an empty
    field is read back as that empty field, and when the text ends in such
    a space `strip()` has already removed it.
   */
  lemma {:induction false} SpacedKeptRecords(rows: seq<seq<string>>)
    requires IsPlainRows(rows)
    ensures KeptRecords(CsvReader.JoinLines(SpaceRows(rows))) == rows
  {
    var sp := SpaceRows(rows);
    SpacedRows(rows);
    var ts := TrimLast(sp);
    TrimLastRead(sp);
    assert IsStripped(rows[0][0]) && IsStripped(Last(Last(rows)));
    SpacedEnds(rows);
    JoinLinesEnds(ts);
    JoinedKept(ts);
    TrimmedRecords(sp);
  }

  /** A space trailing the joined text is stripped before the reader sees it. */
  lemma {:induction false} TrimmedRecords(rows: seq<seq<string>>)
    requires rows != [] && forall i :: 0 <= i < |rows| ==> CsvReader.IsPlainRecord(rows[i])
    requires CsvReader.JoinLines(TrimLast(rows)) != [] && IsStripped(CsvReader.JoinLines(TrimLast(rows)))
    ensures Records(CsvReader.JoinLines(rows)) == Records(CsvReader.JoinLines(TrimLast(rows)))
  {
    var ts := TrimLast(rows);
    if |Last(rows)| >= 2 && Last(Last(rows)) == " " {
      var u := CsvReader.JoinLines(ts);
      JoinLinesTrail(rows);
      TrimLastRead(rows);
      JoinLinesNoCr(ts);
      ContentTrailingSpace(u);
    } else {
      assert ts == rows;
    }
  }

  /** A space after stripped text without CR does not reach the reader. */
  lemma {:induction false} ContentTrailingSpace(u: string)
    requires u != [] && IsStripped(u) && '\r' !in u
    ensures Content(u + " ") == Content(u) == u
  {
    NormalizeNewlinesSpec(u);
    NormalizeNewlinesSpec(u + " ");
    StripTrailingSpace(u);
  }

  /** A spaced, trimmed record keeps its first field, and its last field ends with no whitespace. */
  lemma {:induction false} SpacedRowEnds(fs: seq<string>)
    requires CsvReader.IsPlainRecord(fs) && IsStripped(Last(fs))
    ensures var t := TrimSpace(SpaceAfterCommas(fs));
      t[0] == fs[0] && (Last(t) == [] || !IsSpace(Last(Last(t))))
  {
    var g := SpaceAfterCommas(fs);
    if |fs| == 1 {
      assert fs == [fs[0]];
      assert g == fs;
    } else {
      assert Last(g) == " " + Last(fs);
      if Last(fs) != [] {
        assert Last(Last(g)) == Last(Last(fs));
      }
    }
  }

  /** The trimmed spaced rows start and end with no whitespace. */
  lemma {:induction false} SpacedEnds(rows: seq<seq<string>>)
    requires rows != [] && CsvReader.IsPlainRecord(rows[0]) && CsvReader.IsPlainRecord(Last(rows))
    requires IsStripped(rows[0][0]) && IsStripped(Last(Last(rows)))
    ensures var ts := TrimLast(SpaceRows(rows));
      && (ts[0][0] == [] || !IsSpace(ts[0][0][0]))
      && (Last(Last(ts)) == [] || !IsSpace(Last(Last(Last(ts)))))
  {
    var sp := SpaceRows(rows);
    var ts := TrimLast(sp);
    SpacedRowEnds(Last(rows));
    assert Last(sp) == SpaceAfterCommas(Last(rows));
    assert ts[0][0] == rows[0][0];
  }

  /** Spaced rows are plain records, read back as the rows, which are kept as they are. */
  lemma {:induction false} SpacedRows(rows: seq<seq<string>>)
    requires IsPlainRows(rows)
    ensures forall i :: 0 <= i < |rows| ==> CsvReader.IsPlainRecord(SpaceRows(rows)[i])
    ensures CsvReader.SkipRows(SpaceRows(rows)) == rows
    ensures forall i :: 0 <= i < |rows| ==> IsKeptRow(rows[i])
  {
    var sp := SpaceRows(rows);
    forall i | 0 <= i < |rows|
      ensures CsvReader.IsPlainRecord(sp[i]) && CsvReader.SkipAll(sp[i]) == rows[i]
    {
      SpacedRow(rows[i]);
    }
  }

  /** With a header row, a table of one width written with `, ` between its fields parses back to its header and data rows. */
  lemma {:induction false} ParseSpacedWithHeader(rows: seq<seq<string>>)
    requires IsPlainTable(rows)
    ensures ParseCsv(CsvReader.JoinLines(SpaceRows(rows)), true) == Table(rows[0], rows[1..])
  {
    SpacedKeptRecords(rows);
    ShapeRectangularRows(rows);
  }

  /** Without a header row, the same text parses back to all its rows under `col_1..col_<width>`. */
  lemma {:induction false} ParseSpacedWithoutHeader(rows: seq<seq<string>>)
    requires IsPlainTable(rows)
    ensures ParseCsv(CsvReader.JoinLines(SpaceRows(rows)), false) == Table(ColNames(0, |rows[0]|), rows)
  {
    SpacedKeptRecords(rows);
    ShapeRectangularRows(rows);
  }

  /** `Name, Age / Alice, 31 / Bob, 29` with a header row: the spaces after the commas are skipped. */
  lemma {:induction false} SpacedExampleWithHeader()
    ensures ParseCsv("Name, Age\nAlice, 31\nBob, 29", true)
         == Table(["Name", "Age"], [["Alice", "31"], ["Bob", "29"]])
  {
    var rows := [["Name", "Age"], ["Alice", "31"], ["Bob", "29"]];
    SpacedText(rows);
    SpacedWords(rows);
    ParseSpacedWithHeader(rows);
  }

  /** The same text without a header row: every line is data, under `col_1` and `col_2`. */
  lemma {:induction false} SpacedExampleWithoutHeader()
    ensures ParseCsv("Name, Age\nAlice, 31\nBob, 29", false)
         == Table(["col_1", "col_2"], [["Name", "Age"], ["Alice", "31"], ["Bob", "29"]])
  {
    var rows := [["Name", "Age"], ["Alice", "31"], ["Bob", "29"]];
    SpacedText(rows);
    SpacedWords(rows);
    ParseSpacedWithoutHeader(rows);
    TwoColNames();
  }

  /** `a, b / 1, ` with a header row: the empty last field comes back empty, though `strip()` took the space before it. */
  lemma {:induction false} SpacedEmptyFieldExample()
    ensures ParseCsv("a, b\n1, ", true) == Table(["a", "b"], [["1", ""]])
  {
    var rows := [["a", "b"], ["1", ""]];
    SpacedPairText("a", "b");
    SpacedPairText("1", "");
    var sp := SpaceRows(rows);
    assert sp[1..] == [sp[1]];
    assert CsvReader.JoinLines(sp) == "a, b\n1, ";
    EmptyFieldRows(rows);
    ParseSpacedWithHeader(rows);
  }

  lemma {:induction false} EmptyFieldRows(rows: seq<seq<string>>)
    requires rows == [["a", "b"], ["1", ""]]
    ensures IsPlainTable(rows)
  {
    forall i | 0 <= i < |rows|
      ensures CsvReader.IsPlainRecord(rows[i]) && HasContent(rows[i])
      ensures forall k :: 0 <= k < |rows[i]| ==> IsStripped(rows[i][k])
      ensures |rows[i]| == 2
    {
      if i == 0 {
        WordRow(rows[0]);
      } else {
        EmptyLastRow("1");
        assert rows[1] == ["1", ""];
      }
    }
  }

  /** A word followed by an empty field is a plain row with content. */
  lemma {:induction false} EmptyLastRow(w: string)
    requires w != [] && forall m :: 0 <= m < |w| ==> 'A' <= w[m] <= 'z' || '0' <= w[m] <= '9'
    ensures CsvReader.IsPlainRecord([w, ""]) && HasContent([w, ""])
    ensures forall k :: 0 <= k < 2 ==> IsStripped([w, ""][k])
  {
    WordRow([w]);
    assert [w][0] == [w, ""][0];
    assert CsvReader.SkipSpaces("") == "";
  }

  lemma {:induction false} TwoColNames()
    ensures ColNames(0, 2) == ["col_1", "col_2"]
  {
    assert ColName(0) == "col_1" by { assert NatToString(1) == "1"; }
    assert ColName(1) == "col_2" by { assert NatToString(2) == "2"; }
  }

  /** A two-field row written with a space after its comma. */
  lemma {:induction false} SpacedPairText(a: string, b: string)
    ensures CsvReader.JoinFields(SpaceAfterCommas([a, b])) == a + ", " + b
  {
    assert SpaceAfterCommas([a, b]) == [a, " " + b];
  }

  lemma {:induction false} SpacedText(rows: seq<seq<string>>)
    requires rows == [["Name", "Age"], ["Alice", "31"], ["Bob", "29"]]
    ensures CsvReader.JoinLines(SpaceRows(rows)) == "Name, Age\nAlice, 31\nBob, 29"
  {
    var sp := SpaceRows(rows);
    SpacedPairText("Name", "Age");
    SpacedPairText("Alice", "31");
    SpacedPairText("Bob", "29");
    JoinThreeLines(sp);
  }

  lemma {:induction false} JoinThreeLines(rows: seq<seq<string>>)
    requires |rows| == 3
    ensures CsvReader.JoinLines(rows)
         == CsvReader.JoinFields(rows[0]) + "\n" + CsvReader.JoinFields(rows[1]) + "\n" + CsvReader.JoinFields(rows[2])
  {
    assert rows[1..][1..] == rows[2..];
    assert CsvReader.JoinLines(rows[2..]) == CsvReader.JoinFields(rows[2]);
  }

  lemma {:induction false} SpacedWords(rows: seq<seq<string>>)
    requires rows == [["Name", "Age"], ["Alice", "31"], ["Bob", "29"]]
    ensures IsPlainTable(rows)
  {
    forall i | 0 <= i < |rows|
      ensures CsvReader.IsPlainRecord(rows[i]) && HasContent(rows[i])
      ensures forall k :: 0 <= k < |rows[i]| ==> IsStripped(rows[i][k])
      ensures |rows[i]| == 2
    {
      WordRow(rows[i]);
    }
  }

  /** A row of non-empty words of letters and digits is plain. */
  lemma {:induction false} WordRow(row: seq<string>)
    requires row != []
    requires forall k :: 0 <= k < |row| ==> row[k] != [] && forall m :: 0 <= m < |row[k]| ==> 'A' <= row[k][m] <= 'z' || '0' <= row[k][m] <= '9'
    ensures CsvReader.IsPlainRecord(row) && HasContent(row)
    ensures forall k :: 0 <= k < |row| ==> IsStripped(row[k])
  {
    forall k | 0 <= k < |row|
      ensures CsvReader.IsPlainField(row[k]) && IsStripped(row[k])
    {
      assert row[k][0] != ' ';
    }
    assert Strip(row[0]) == row[0];
  }
}
