/**
  `to_list_of_dicts` and `generate_code`: each row becomes an ordered
  record by pairing it with the headers position by position, and the
  records are written out, as a pretty-printed JSON literal, in one of
  three code templates chosen by the mode string.
 */
module CodeGen {
  import opened Wrappers
  import opened OrderedDict
  import opened Json

  /** One row as a dictionary from header to cell. */
  type Record = Dict<string>

  function Min(a: nat, b: nat): nat {
    if a <= b then a else b
  }

  /** `zip(hs, r)`: the pairs at equal positions, as many as the shorter input has. */
  function Zip(hs: seq<string>, r: seq<string>): (ps: seq<(string, string)>)
    ensures |ps| == Min(|hs|, |r|)
    ensures forall i :: 0 <= i < |ps| ==> ps[i] == (hs[i], r[i])
  {
    if hs == [] || r == [] then [] else [(hs[0], r[0])] + Zip(hs[1..], r[1..])
  }

  /** `dict(zip(headers, r))`: a dictionary, keyed by headers only. */
  function ToRecord(headers: seq<string>, r: seq<string>): (d: Record)
    ensures DistinctKeys(d)
    ensures forall k :: k in Keys(d) ==> k in headers
  {
    ZipKeys(headers, r);
    FromPairs(Zip(headers, r))
  }

  /** `to_list_of_dicts(headers, rows)`: one record per row, in row order. */
  function ToListOfDicts(headers: seq<string>, rows: seq<seq<string>>): (lod: seq<Record>)
    ensures |lod| == |rows|
    ensures forall i :: 0 <= i < |rows| ==> lod[i] == ToRecord(headers, rows[i])
  {
    if rows == [] then [] else [ToRecord(headers, rows[0])] + ToListOfDicts(headers, rows[1..])
  }

  // ---------------------------------------------------------------------
  // Records

  lemma ZipKeys(hs: seq<string>, r: seq<string>)
    ensures Keys(Zip(hs, r)) == hs[..Min(|hs|, |r|)]
  {
  }

  /** A record's keys are the headers that have a cell in its row. */
  lemma {:induction false} RecordKeys(headers: seq<string>, r: seq<string>)
    ensures DistinctKeys(ToRecord(headers, r))
    ensures forall k :: k in Keys(ToRecord(headers, r)) <==> k in headers[..Min(|headers|, |r|)]
  {
    ZipKeys(headers, r);
  }

  /** A row at least as wide as the headers has every header as a key. */
  lemma {:induction false} RecordKeysFull(headers: seq<string>, r: seq<string>)
    requires |r| >= |headers|
    ensures forall k :: k in Keys(ToRecord(headers, r)) <==> k in headers
  {
    RecordKeys(headers, r);
    assert headers[..Min(|headers|, |r|)] == headers;
  }

  /** The keys of a record stand in the order of their first occurrence among the headers. */
  lemma {:induction false} RecordKeyOrder(headers: seq<string>, r: seq<string>, i: nat, j: nat)
    requires i < j < |ToRecord(headers, r)|
    ensures var d := ToRecord(headers, r);
            d[i].0 in headers && d[j].0 in headers
            && FirstIndex(headers, d[i].0) < FirstIndex(headers, d[j].0)
  {
    var d := ToRecord(headers, r);
    var n := Min(|headers|, |r|);
    FromPairsKeyOrder(Zip(headers, r), i, j);
    ZipKeys(headers, r);
    FirstIndexInPrefix(headers, n, d[i].0);
    FirstIndexInPrefix(headers, n, d[j].0);
  }

  lemma {:induction false} FirstIndexInPrefix(hs: seq<string>, n: nat, k: string)
    requires n <= |hs| && k in hs[..n]
    ensures k in hs && FirstIndex(hs, k) == FirstIndex(hs[..n], k)
  {
    FirstIndexOfPrefix(hs[..n], hs[n..], k);
    assert hs[..n] + hs[n..] == hs;
  }

  /** A header holds the cell at its last occurrence (later duplicates overwrite earlier ones). */
  lemma {:induction false} RecordLastWins(headers: seq<string>, r: seq<string>, i: nat)
    requires i < |headers| && i < |r|
    requires forall j :: i < j < |headers| && j < |r| ==> headers[j] != headers[i]
    ensures Get(ToRecord(headers, r), headers[i]) == Some(r[i])
  {
    FromPairsLastWins(Zip(headers, r), i);
  }

  /** With distinct headers a record is the zipped pairs themselves. */
  lemma {:induction false} RecordDistinct(headers: seq<string>, r: seq<string>)
    requires forall i, j :: 0 <= i < j < |headers| ==> headers[i] != headers[j]
    ensures ToRecord(headers, r) == Zip(headers, r)
  {
    FromDistinctPairs(Zip(headers, r));
  }

  // ---------------------------------------------------------------------
  // The values serialised, and their decoders

  function RecordMembers(d: Record): seq<Member> {
    if d == [] then [] else [Member(d[0].0, Str(d[0].1))] + RecordMembers(d[1..])
  }

  /** A record as a JSON object with string values, entry for entry. */
  function RecordJson(d: Record): Json {
    Obj(RecordMembers(d))
  }

  function RecordItems(lod: seq<Record>): seq<Json> {
    if lod == [] then [] else [RecordJson(lod[0])] + RecordItems(lod[1..])
  }

  /** A list of records as a JSON array of objects. */
  function RecordsJson(lod: seq<Record>): Json {
    Arr(RecordItems(lod))
  }

  function BodyMembers(body: Dict<Record>): seq<Member> {
    if body == [] then [] else [Member(body[0].0, RecordJson(body[0].1))] + BodyMembers(body[1..])
  }

  /** A dictionary of records as a JSON object of objects. */
  function BodyJson(body: Dict<Record>): Json {
    Obj(BodyMembers(body))
  }

  /** The record a list of members with string values stands for. */
  function MembersRecord(ms: seq<Member>): Option<Record> {
    if ms == [] then Some([])
    else match (ms[0].value, MembersRecord(ms[1..]))
      case (Str(s), Some(d)) => Some([(ms[0].key, s)] + d)
      case _ => None
  }

  function RecordOf(j: Json): Option<Record> {
    match j
    case Obj(ms) => MembersRecord(ms)
    case _ => None
  }

  function ItemsRecords(items: seq<Json>): Option<seq<Record>> {
    if items == [] then Some([])
    else match (RecordOf(items[0]), ItemsRecords(items[1..]))
      case (Some(d), Some(lod)) => Some([d] + lod)
      case _ => None
  }

  /** The list of records a JSON value stands for, if it is an array of objects of strings. */
  function RecordsOf(j: Json): Option<seq<Record>> {
    match j
    case Arr(items) => ItemsRecords(items)
    case _ => None
  }

  function MembersBody(ms: seq<Member>): Option<Dict<Record>> {
    if ms == [] then Some([])
    else match (RecordOf(ms[0].value), MembersBody(ms[1..]))
      case (Some(d), Some(body)) => Some([(ms[0].key, d)] + body)
      case _ => None
  }

  /** The dictionary of records a JSON value stands for, if it is an object of objects of strings. */
  function BodyOf(j: Json): Option<Dict<Record>> {
    match j
    case Obj(ms) => MembersBody(ms)
    case _ => None
  }

  lemma {:induction false} RecordOfJson(d: Record)
    ensures RecordOf(RecordJson(d)) == Some(d)
    decreases |d|
  {
    if d != [] {
      RecordOfJson(d[1..]);
      assert RecordMembers(d)[1..] == RecordMembers(d[1..]);
      assert [(d[0].0, d[0].1)] + d[1..] == d;
    }
  }

  /** Reading the array of a list of records gives back that list. */
  lemma {:induction false} RecordsOfJson(lod: seq<Record>)
    ensures RecordsOf(RecordsJson(lod)) == Some(lod)
    decreases |lod|
  {
    if lod != [] {
      RecordOfJson(lod[0]);
      RecordsOfJson(lod[1..]);
      assert RecordItems(lod)[1..] == RecordItems(lod[1..]);
      assert [lod[0]] + lod[1..] == lod;
    }
  }

  /** Reading the object of a dictionary of records gives back that dictionary. */
  lemma {:induction false} BodyOfJson(body: Dict<Record>)
    ensures BodyOf(BodyJson(body)) == Some(body)
    decreases |body|
  {
    if body != [] {
      RecordOfJson(body[0].1);
      BodyOfJson(body[1..]);
      assert BodyMembers(body)[1..] == BodyMembers(body[1..]);
      assert [(body[0].0, body[0].1)] + body[1..] == body;
    }
  }

  // ---------------------------------------------------------------------
  // Dict mode

  /** `str(r.get(key, ""))` */
  function KeyValue(r: Record, key: string): (v: string)
    ensures key in Keys(r) ==> Get(r, key) == Some(v)
    ensures key !in Keys(r) ==> v == ""
  {
    match Get(r, key)
    case Some(v) => v
    case None => ""
  }

  /** The pairs the dict comprehension assigns, one per record, in order. */
  function BodyPairs(lod: seq<Record>, key: string): (ps: seq<(string, Record)>)
    ensures |ps| == |lod|
    ensures forall i :: 0 <= i < |lod| ==> ps[i] == (KeyValue(lod[i], key), Without(lod[i], key))
  {
    if lod == [] then [] else [(KeyValue(lod[0], key), Without(lod[0], key))] + BodyPairs(lod[1..], key)
  }

  /** `{str(r.get(key, "")): {k: v for k, v in r.items() if k != key} for r in lod}` */
  function DictBody(lod: seq<Record>, key: string): (body: Dict<Record>)
    ensures DistinctKeys(body)
    ensures forall i :: 0 <= i < |lod| ==> KeyValue(lod[i], key) in Keys(body)
  {
    var ps := BodyPairs(lod, key);
    assert forall i :: 0 <= i < |lod| ==> Keys(ps)[i] == KeyValue(lod[i], key);
    FromPairs(ps)
  }

  /** The keys of the body are the key-column values of the records. */
  lemma {:induction false} DictBodyKeys(lod: seq<Record>, key: string, v: string)
    ensures DistinctKeys(DictBody(lod, key))
    ensures v in Keys(DictBody(lod, key)) <==> exists i :: 0 <= i < |lod| && KeyValue(lod[i], key) == v
  {
    var ps := BodyPairs(lod, key);
    if v in Keys(ps) {
      var i :| 0 <= i < |ps| && Keys(ps)[i] == v;
      assert KeyValue(lod[i], key) == v;
    }
    if exists i :: 0 <= i < |lod| && KeyValue(lod[i], key) == v {
      var i :| 0 <= i < |lod| && KeyValue(lod[i], key) == v;
      assert Keys(ps)[i] == v;
    }
  }

  /** The body's keys stand in the order in which their values first occur among the records. */
  lemma {:induction false} DictBodyKeyOrder(lod: seq<Record>, key: string, i: nat, j: nat)
    requires i < j < |DictBody(lod, key)|
    ensures var body := DictBody(lod, key);
            var vs := Keys(BodyPairs(lod, key));
            body[i].0 in vs && body[j].0 in vs && FirstIndex(vs, body[i].0) < FirstIndex(vs, body[j].0)
  {
    FromPairsKeyOrder(BodyPairs(lod, key), i, j);
  }

  /**
    A record whose key value no later record repeats is found under that
    value with the key column removed; with a later repeat, the later
    record is the one found.
   */
  lemma {:induction false} DictBodyLastWins(lod: seq<Record>, key: string, i: nat)
    requires i < |lod|
    requires forall j :: i < j < |lod| ==> KeyValue(lod[j], key) != KeyValue(lod[i], key)
    ensures Get(DictBody(lod, key), KeyValue(lod[i], key)) == Some(Without(lod[i], key))
  {
    FromPairsLastWins(BodyPairs(lod, key), i);
  }

  // ---------------------------------------------------------------------
  // Code templates

  /** `json.dumps(lod, indent=2, ensure_ascii=False)` */
  function Literal(headers: seq<string>, rows: seq<seq<string>>): (l: string)
    ensures |l| >= 2 && l[0] == '[' && l[|l| - 1] == ']'
  {
    Dumps(RecordsJson(ToListOfDicts(headers, rows)))
  }

  const PandasHead := "import pandas as pd\nrows = "
  const PandasTail := "\ndf = pd.DataFrame(rows)\nprint(df)\n"

  /** `generate_code(headers, rows, mode)` (app/main.py:50-83). */
  function GenerateCode(headers: seq<string>, rows: seq<seq<string>>, mode: string): (code: string)
    ensures mode == "listdict" ==>
              |code| > 7 && code[..7] == "data = " && code[7] == '[' && code[|code| - 1] == ']'
    ensures mode == "dict" && headers != [] ==>
              |code| > 7 && code[..7] == "data = " && code[7] == '{' && code[|code| - 1] == '}'
    ensures mode != "listdict" && mode != "dict" ==>
              && |PandasHead| + |PandasTail| < |code|
              && code[..|PandasHead|] == PandasHead
              && code[|code| - |PandasTail|..] == PandasTail
  {
    if mode == "listdict" then
      "data = " + Literal(headers, rows)
    else if mode == "dict" then
      if headers == [] then "data = {}  # No data"
      else "data = " + Dumps(BodyJson(DictBody(ToListOfDicts(headers, rows), headers[0])))
    else
      PandasHead + Literal(headers, rows) + PandasTail
  }

  /** The JSON literal of the records reads back as exactly those records, in order, all values strings. */
  lemma {:induction false} LiteralReadsBack(headers: seq<string>, rows: seq<seq<string>>)
    ensures match Loads(Literal(headers, rows))
            case Some(j) => RecordsOf(j) == Some(ToListOfDicts(headers, rows))
            case None => false
  {
    var lod := ToListOfDicts(headers, rows);
    LoadsDumps(RecordsJson(lod));
    RecordsOfJson(lod);
  }

  /** The listdict code is `data = ` followed by a literal that reads back as the records, and it ends with the literal's closing bracket. */
  lemma {:induction false} ListDictCode(headers: seq<string>, rows: seq<seq<string>>)
    ensures var c := GenerateCode(headers, rows, "listdict");
            |c| > 7 && c[..7] == "data = " && c[|c| - 1] == ']'
            && match Loads(c[7..])
               case Some(j) => RecordsOf(j) == Some(ToListOfDicts(headers, rows))
               case None => false
  {
    var c := GenerateCode(headers, rows, "listdict");
    assert c[7..] == Literal(headers, rows);
    LiteralReadsBack(headers, rows);
  }

  /**
    Every mode other than `listdict` and `dict` gives the pandas script
    around the very literal the listdict code assigns to `data`.
   */
  lemma {:induction false} PandasCode(headers: seq<string>, rows: seq<seq<string>>, mode: string)
    requires mode != "listdict" && mode != "dict"
    ensures var l := GenerateCode(headers, rows, "listdict");
            |l| >= 7 && GenerateCode(headers, rows, mode) == PandasHead + l[7..] + PandasTail
  {
    var l := GenerateCode(headers, rows, "listdict");
    assert l[7..] == Literal(headers, rows);
  }

  /** Dict mode with no headers gives the fixed placeholder; the mode does not depend on the rows then. */
  lemma DictCodeNoHeaders(rows: seq<seq<string>>)
    ensures GenerateCode([], rows, "dict") == "data = {}  # No data"
  {
  }

  /**
    Dict mode with headers is `data = ` followed by a literal that reads
    back as the dictionary from each record's first-column value to the
    record without that column, and it ends with the literal's closing
    brace.
   */
  lemma {:induction false} DictCode(headers: seq<string>, rows: seq<seq<string>>)
    requires headers != []
    ensures var c := GenerateCode(headers, rows, "dict");
            |c| > 7 && c[..7] == "data = " && c[|c| - 1] == '}'
            && match Loads(c[7..])
               case Some(j) => BodyOf(j) == Some(DictBody(ToListOfDicts(headers, rows), headers[0]))
               case None => false
  {
    var body := DictBody(ToListOfDicts(headers, rows), headers[0]);
    var c := GenerateCode(headers, rows, "dict");
    assert c[7..] == Dumps(BodyJson(body));
    LoadsDumps(BodyJson(body));
    BodyOfJson(body);
  }

  /**
    In dict mode a row whose first-column value no later row repeats is
    found under that value, as its record without the first column.
   */
  lemma {:induction false} DictCodeRow(headers: seq<string>, rows: seq<seq<string>>, i: nat)
    requires headers != [] && i < |rows|
    requires forall j :: i < j < |rows| ==>
               KeyValue(ToRecord(headers, rows[j]), headers[0]) != KeyValue(ToRecord(headers, rows[i]), headers[0])
    ensures var key := headers[0];
            var d := ToRecord(headers, rows[i]);
            Get(DictBody(ToListOfDicts(headers, rows), key), KeyValue(d, key)) == Some(Without(d, key))
  {
    var lod := ToListOfDicts(headers, rows);
    var key := headers[0];
    forall j | i < j < |lod|
      ensures KeyValue(lod[j], key) != KeyValue(lod[i], key)
    {
      assert lod[j] == ToRecord(headers, rows[j]);
    }
    DictBodyLastWins(lod, key, i);
  }

  /** A row of two cells under two different headers is the pair of entries. */
  lemma {:induction false} TwoColumnRecord(h1: string, h2: string, a: string, b: string)
    requires h1 != h2
    ensures ToRecord([h1, h2], [a, b]) == [(h1, a), (h2, b)]
    ensures KeyValue([(h1, a), (h2, b)], h1) == a
    ensures Without([(h1, a), (h2, b)], h1) == [(h2, b)]
  {
    RecordDistinct([h1, h2], [a, b]);
    assert Zip([h1, h2], [a, b]) == [(h1, a), (h2, b)];
    assert Keys([(h1, a), (h2, b)]) == [h1, h2];
    assert [(h1, a), (h2, b)][1..][1..] == [];
  }

  /**
    Dict mode on a two-column table whose first cells differ: each row is
    found under its first cell, as the record of its second column.
   */
  lemma {:induction false} TwoRowBody(h1: string, h2: string, a1: string, b1: string, a2: string, b2: string)
    requires h1 != h2 && a1 != a2
    ensures DictBody(ToListOfDicts([h1, h2], [[a1, b1], [a2, b2]]), h1) == [(a1, [(h2, b1)]), (a2, [(h2, b2)])]
  {
    TwoColumnRecord(h1, h2, a1, b1);
    TwoColumnRecord(h1, h2, a2, b2);
    var lod := [[(h1, a1), (h2, b1)], [(h1, a2), (h2, b2)]];
    assert ToListOfDicts([h1, h2], [[a1, b1], [a2, b2]]) == lod;
    var ps := BodyPairs(lod, h1);
    assert ps == [(a1, [(h2, b1)]), (a2, [(h2, b2)])];
    assert Keys(ps) == [a1, a2];
    FromDistinctPairs(ps);
  }

  /** The JSON value of such a body: an object of objects of one string each. */
  lemma {:induction false} TwoRowJson(h2: string, a1: string, b1: string, a2: string, b2: string)
    ensures BodyJson([(a1, [(h2, b1)]), (a2, [(h2, b2)])])
         == Obj([Member(a1, Obj([Member(h2, Str(b1))])), Member(a2, Obj([Member(h2, Str(b2))]))])
  {
    var body := [(a1, [(h2, b1)]), (a2, [(h2, b2)])];
    assert RecordMembers([(h2, b1)]) == [Member(h2, Str(b1))];
    assert RecordMembers([(h2, b2)]) == [Member(h2, Str(b2))];
    assert body[1..][1..] == [];
    assert BodyMembers(body[1..]) == [Member(a2, RecordJson([(h2, b2)]))];
  }

  /** The dict-mode code of such a table: `data = ` and the text of that object. */
  lemma {:induction false} TwoRowCode(h1: string, h2: string, a1: string, b1: string, a2: string, b2: string)
    requires h1 != h2 && a1 != a2
    ensures GenerateCode([h1, h2], [[a1, b1], [a2, b2]], "dict")
         == "data = " + Dumps(Obj([Member(a1, Obj([Member(h2, Str(b1))])), Member(a2, Obj([Member(h2, Str(b2))]))]))
  {
    TwoRowBody(h1, h2, a1, b1, a2, b2);
    TwoRowJson(h2, a1, b1, a2, b2);
  }

  /**
    Dict mode on headers `k, v` and rows `x, 1` and `y, 2`, line by line:
    `data = ` and the dict of each first cell to the record of the second
    column, each level two spaces deeper.
   */
  lemma {:induction false} DictExample()
    ensures GenerateCode(["k", "v"], [["x", "1"], ["y", "2"]], "dict")
         == "data = {"
          + "\n  \"x\": {"
          + "\n    \"v\": \"1\""
          + "\n  },"
          + "\n  \"y\": {"
          + "\n    \"v\": \"2\""
          + "\n  }"
          + "\n}"
  {
    TwoRowCode("k", "v", "x", "1", "y", "2");
    DumpsNestedExample();
    Prefixed("data = ", "{", "\n  \"x\": {", "\n    \"v\": \"1\"", "\n  },",
             "\n  \"y\": {", "\n    \"v\": \"2\"", "\n  }", "\n}");
    DataLine();
  }

  /** Two two-column rows with distinct headers make a JSON array of two objects of two string members each. */
  lemma {:induction false} TwoRecordsJson(h1: string, h2: string, a1: string, b1: string, a2: string, b2: string)
    requires h1 != h2
    ensures RecordsJson(ToListOfDicts([h1, h2], [[a1, b1], [a2, b2]]))
         == Arr([Obj([Member(h1, Str(a1)), Member(h2, Str(b1))]), Obj([Member(h1, Str(a2)), Member(h2, Str(b2))])])
  {
    var lod := ToListOfDicts([h1, h2], [[a1, b1], [a2, b2]]);
    TwoColumnRecord(h1, h2, a1, b1);
    TwoColumnRecord(h1, h2, a2, b2);
    assert lod == [[(h1, a1), (h2, b1)], [(h1, a2), (h2, b2)]];
    TwoEntryMembers(h1, a1, h2, b1);
    TwoEntryMembers(h1, a2, h2, b2);
    assert lod[1..][1..] == [];
    assert RecordItems(lod[1..]) == [RecordJson(lod[1])];
  }

  /** A record of two entries becomes two string members, in its order. */
  lemma {:induction false} TwoEntryMembers(h1: string, a: string, h2: string, b: string)
    ensures RecordMembers([(h1, a), (h2, b)]) == [Member(h1, Str(a)), Member(h2, Str(b))]
  {
    var d := [(h1, a), (h2, b)];
    assert d[1..] == [(h2, b)] && d[1..][1..] == [];
    assert RecordMembers(d[1..]) == [Member(h2, Str(b))] + RecordMembers([]);
    assert RecordMembers(d) == [Member(h1, Str(a))] + RecordMembers(d[1..]);
  }

  /**
    The list literal of headers `k, v` and rows `x, 1` and `y, 2`, line by
    line: each record on its own lines two spaces in, its members four
    spaces in, a comma after every member and every record but the last.
   */
  lemma {:induction false} ExampleLiteral()
    ensures Literal(["k", "v"], [["x", "1"], ["y", "2"]])
         == "["
          + "\n  {"
          + "\n    \"k\": \"x\","
          + "\n    \"v\": \"1\""
          + "\n  },"
          + "\n  {"
          + "\n    \"k\": \"y\","
          + "\n    \"v\": \"2\""
          + "\n  }"
          + "\n]"
  {
    TwoRecordsJson("k", "v", "x", "1", "y", "2");
    TwoRecordsText("k", "v", "x", "1", "y", "2");
    ExampleLiteralLines();
  }

  /** Proof step: literal merges. */
  lemma ExampleLiteralLines()
    ensures "\n    " + (("\"" + "k" + "\": \"" + "x" + "\"") + ",") == "\n    \"k\": \"x\","
    ensures "\n    " + (("\"" + "k" + "\": \"" + "y" + "\"") + ",") == "\n    \"k\": \"y\","
    ensures "\n    " + ("\"" + "v" + "\": \"" + "1" + "\"") == "\n    \"v\": \"1\""
    ensures "\n    " + ("\"" + "v" + "\": \"" + "2" + "\"") == "\n    \"v\": \"2\""
  {
  }

  /** Listdict mode on the same table: `data = ` and that literal. */
  lemma {:induction false} ListDictExample()
    ensures GenerateCode(["k", "v"], [["x", "1"], ["y", "2"]], "listdict")
         == "data = ["
          + "\n  {"
          + "\n    \"k\": \"x\","
          + "\n    \"v\": \"1\""
          + "\n  },"
          + "\n  {"
          + "\n    \"k\": \"y\","
          + "\n    \"v\": \"2\""
          + "\n  }"
          + "\n]"
  {
    ExampleLiteral();
    PrefixedTen("data = ", "[", "\n  {", "\n    \"k\": \"x\",", "\n    \"v\": \"1\"", "\n  },",
                "\n  {", "\n    \"k\": \"y\",", "\n    \"v\": \"2\"", "\n  }", "\n]");
    ListDataLine();
  }

  /** Pandas mode on the same table: the pandas header, that literal, and the pandas tail. */
  lemma {:induction false} PandasExample()
    ensures GenerateCode(["k", "v"], [["x", "1"], ["y", "2"]], "pandas")
         == "import pandas as pd\nrows = ["
          + "\n  {"
          + "\n    \"k\": \"x\","
          + "\n    \"v\": \"1\""
          + "\n  },"
          + "\n  {"
          + "\n    \"k\": \"y\","
          + "\n    \"v\": \"2\""
          + "\n  }"
          + "\n]"
          + "\ndf = pd.DataFrame(rows)\nprint(df)\n"
  {
    ExampleLiteral();
    PrefixedTen(PandasHead, "[", "\n  {", "\n    \"k\": \"x\",", "\n    \"v\": \"1\"", "\n  },",
                "\n  {", "\n    \"k\": \"y\",", "\n    \"v\": \"2\"", "\n  }", "\n]");
    PandasDataLine();
  }

  /** Proof step: a literal merge. */
  lemma ListDataLine()
    ensures "data = " + "[" == "data = ["
  {
  }

  /** Proof step: a literal merge. */
  lemma PandasDataLine()
    ensures PandasHead + "[" == "import pandas as pd\nrows = ["
  {
  }

  /** Proof step: regrouping a concatenation, kept apart so the solver need not search for it. */
  lemma PrefixedTen(p: string, l0: string, l1: string, l2: string, l3: string, l4: string,
                    l5: string, l6: string, l7: string, l8: string, l9: string)
    ensures p + (l0 + l1 + l2 + l3 + l4 + l5 + l6 + l7 + l8 + l9) == (p + l0) + l1 + l2 + l3 + l4 + l5 + l6 + l7 + l8 + l9
  {
  }

  /** Proof step: a literal merge. */
  lemma DataLine()
    ensures "data = " + "{" == "data = {"
  {
  }

  /** Proof step: regrouping a concatenation, kept apart so the solver need not search for it. */
  lemma Prefixed(p: string, l0: string, l1: string, l2: string, l3: string, l4: string, l5: string, l6: string, l7: string)
    ensures p + (l0 + l1 + l2 + l3 + l4 + l5 + l6 + l7) == (p + l0) + l1 + l2 + l3 + l4 + l5 + l6 + l7
  {
  }
}
