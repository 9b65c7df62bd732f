/**
  `json.dumps(value, indent=2, ensure_ascii=False)` for the values
  `generate_code` serialises: lists and dicts whose leaves are strings.

  A non-empty list or dict opens on its own line, puts each element on a
  new line indented two spaces deeper than the container, separates
  elements with `,`, writes a member as key, `": "`, value, and closes on a
  new line at the container's own indentation; an empty one is `[]` or
  `{}`.  A string is written between double quotes with the backslash, the
  quote and the control characters U+0000..U+001F escaped; every other
  character is written as itself.

  Beside the serialiser stands a decoder for the same values (JSON text as
  in RFC 8259, restricted to strings, arrays and objects); the serialised
  text of every value decodes back to that value.
 */
module Json {
  import opened Wrappers

  datatype Json =
    | Str(s: string)
    | Arr(items: seq<Json>)
    | Obj(members: seq<Member>)

  datatype Member = Member(key: string, value: Json)

  // ---------------------------------------------------------------------
  // Strings

  function HexDigit(d: nat): (c: char)
    requires d < 16
  {
    "0123456789abcdef"[d]
  }

  /**
    A character a string literal holds as itself.  With
    `ensure_ascii=False` that is every character but the quote, the
    backslash and the control characters, non-ASCII ones included.
   */
  predicate Unescaped(c: char) {
    c != '"' && c != '\\' && c as int >= 0x20
  }

  /** The text of one character inside a string literal. */
  function EscapeChar(c: char): (e: string)
    ensures e != [] && e[0] != '"'
    ensures e[0] == '\\' || (e == [c] && c as int >= 0x20)
    ensures Unescaped(c) ==> e == [c]
  {
    if c == '"' then "\\\""
    else if c == '\\' then "\\\\"
    else if c == '\n' then "\\n"
    else if c == '\r' then "\\r"
    else if c == '\t' then "\\t"
    else if c as int == 0x08 then "\\b"
    else if c as int == 0x0C then "\\f"
    else if c as int < 0x20 then "\\u00" + [HexDigit(c as int / 16), HexDigit(c as int % 16)]
    else [c]
  }

  function EscapeString(s: string): (e: string)
    ensures |e| >= |s|
  {
    if s == [] then [] else EscapeChar(s[0]) + EscapeString(s[1..])
  }

  /** A string literal. */
  function Quote(s: string): (r: string)
    ensures |r| >= 2 && r[0] == '"' && r[|r| - 1] == '"'
    ensures |r| >= |s| + 2
  {
    "\"" + EscapeString(s) + "\""
  }

  /** A string of characters that need no escape is written as it is, between quotes. */
  lemma {:induction false} QuoteUnescaped(s: string)
    requires forall k :: 0 <= k < |s| ==> Unescaped(s[k])
    ensures EscapeString(s) == s
    ensures Quote(s) == "\"" + s + "\""
    decreases |s|
  {
    if s != [] {
      QuoteUnescaped(s[1..]);
      assert [s[0]] + s[1..] == s;
    }
  }

  // ---------------------------------------------------------------------
  // Serialiser

  function Indent(level: nat): (r: string)
    ensures |r| == 2 * level
    ensures forall i :: 0 <= i < |r| ==> r[i] == ' '
  {
    if level == 0 then "" else "  " + Indent(level - 1)
  }

  /** A line break followed by the indentation of `level`. */
  function Newline(level: nat): string {
    "\n" + Indent(level)
  }

  /** The text of `j` when it stands at nesting depth `level`. */
  function Dump(j: Json, level: nat): string
    decreases j
  {
    match j
    case Str(s) => Quote(s)
    case Arr(items) =>
      if items == [] then "[]" else "[" + DumpItems(items, level + 1) + Newline(level) + "]"
    case Obj(ms) =>
      if ms == [] then "{}" else "{" + DumpMembers(ms, level + 1) + Newline(level) + "}"
  }

  /** The elements of a non-empty list, each on its own line at `level`. */
  function DumpItems(items: seq<Json>, level: nat): string
    requires items != []
    decreases items
  {
    Newline(level) + Dump(items[0], level)
    + (if |items| == 1 then "" else "," + DumpItems(items[1..], level))
  }

  /** The members of a non-empty dict, each on its own line at `level`. */
  function DumpMembers(ms: seq<Member>, level: nat): string
    requires ms != []
    decreases ms
  {
    Newline(level) + DumpMember(ms[0], level)
    + (if |ms| == 1 then "" else "," + DumpMembers(ms[1..], level))
  }

  /** One member: its key, `": "` and its value. */
  function DumpMember(m: Member, level: nat): string
    decreases m
  {
    Quote(m.key) + ": " + Dump(m.value, level)
  }

  /**
    `json.dumps(j, indent=2, ensure_ascii=False)`: a string is written
    between quotes, a list between brackets and a dict between braces.
   */
  function Dumps(j: Json): (t: string)
    ensures |t| >= 2
    ensures j.Str? ==> t[0] == '"' && t[|t| - 1] == '"'
    ensures j.Arr? ==> t[0] == '[' && t[|t| - 1] == ']'
    ensures j.Obj? ==> t[0] == '{' && t[|t| - 1] == '}'
  {
    var t := Dump(j, 0);
    assert j.Str? ==> var q := Quote(j.s); t == q && q[|q| - 1] == '"';
    t
  }

  // The layout of `indent=2`, piece by piece.

  /** One level of indentation is two spaces. */
  lemma {:induction false} Newlines()
    ensures Newline(0) == "\n" && Newline(1) == "\n  " && Newline(2) == "\n    "
  {
    assert Indent(1) == "  " + Indent(0);
    assert Indent(2) == "  " + Indent(1);
  }

  /** A member whose key needs no escapes: the key between quotes, `": "` and the value. */
  lemma {:induction false} KeyedText(k: string, j: Json, level: nat)
    requires forall i :: 0 <= i < |k| ==> Unescaped(k[i])
    ensures DumpMember(Member(k, j), level) == "\"" + k + "\": " + Dump(j, level)
  {
    QuoteUnescaped(k);
    Regroup4("\"", k, "\"", ": ", Dump(j, level));
  }

  /** Proof step: regrouping a concatenation, kept apart so the solver need not search for it. */
  lemma Regroup4(q: string, k: string, p: string, c: string, d: string)
    ensures (q + k + p) + c + d == q + k + (p + c) + d
  {
  }

  /** A member whose key and string value need no escapes. */
  lemma {:induction false} StringMemberText(k: string, v: string, level: nat)
    requires forall i :: 0 <= i < |k| ==> Unescaped(k[i])
    requires forall i :: 0 <= i < |v| ==> Unescaped(v[i])
    ensures DumpMember(Member(k, Str(v)), level) == "\"" + k + "\": \"" + v + "\""
  {
    KeyedText(k, Str(v), level);
    QuoteUnescaped(v);
    Regroup5("\"" + k + "\": ", "\"", v);
  }

  /** Proof step: regrouping a concatenation, kept apart so the solver need not search for it. */
  lemma Regroup5(a: string, q: string, v: string)
    ensures a + (q + v + q) == a + q + v + q
  {
  }

  /** A dict of one member: the member on its own line, one level in. */
  lemma {:induction false} OneMemberText(m: Member, level: nat)
    ensures Dump(Obj([m]), level) == "{" + Newline(level + 1) + DumpMember(m, level + 1) + Newline(level) + "}"
  {
    var l := level + 1;
    var n, d := Newline(l), DumpMember(m, l);
    assert DumpMembers([m], l) == n + d + "";
    assert n + d + "" == n + d;
  }

  /** A dict of two members: each on its own line, one level in, the first followed by a comma. */
  lemma {:induction false} TwoMembersText(m1: Member, m2: Member, level: nat)
    ensures Dump(Obj([m1, m2]), level)
         == "{" + Newline(level + 1) + DumpMember(m1, level + 1) + "," + Newline(level + 1) + DumpMember(m2, level + 1) + Newline(level) + "}"
  {
    var l := level + 1;
    var n, d1, d2 := Newline(l), DumpMember(m1, l), DumpMember(m2, l);
    assert [m1, m2][1..] == [m2];
    assert DumpMembers([m2], l) == n + d2 + "";
    var body := DumpMembers([m1, m2], l);
    assert body == n + d1 + ("," + (n + d2 + ""));
    Regroup7("{", n, d1, ",", d2, Newline(level), "}");
  }

  /** Proof step: regrouping a concatenation, kept apart so the solver need not search for it. */
  lemma Regroup7(a: string, n: string, d1: string, c: string, d2: string, m: string, z: string)
    ensures a + (n + d1 + (c + (n + d2 + ""))) + m + z == a + n + d1 + c + n + d2 + m + z
  {
  }

  /** A list of two elements: each on its own line, one level in, the first followed by a comma. */
  lemma {:induction false} TwoItemsText(j1: Json, j2: Json, level: nat)
    ensures Dump(Arr([j1, j2]), level)
         == "[" + Newline(level + 1) + Dump(j1, level + 1) + "," + Newline(level + 1) + Dump(j2, level + 1) + Newline(level) + "]"
  {
    var l := level + 1;
    var n, d1, d2 := Newline(l), Dump(j1, l), Dump(j2, l);
    assert [j1, j2][1..] == [j2];
    assert DumpItems([j2], l) == n + d2 + "";
    var body := DumpItems([j1, j2], l);
    assert body == n + d1 + ("," + (n + d2 + ""));
    Regroup7("[", n, d1, ",", d2, Newline(level), "]");
  }

  /** A list of one element: the element on its own line, one level in. */
  lemma {:induction false} OneItemText(j: Json, level: nat)
    ensures Dump(Arr([j]), level) == "[" + Newline(level + 1) + Dump(j, level + 1) + Newline(level) + "]"
  {
    var l := level + 1;
    var n, d := Newline(l), Dump(j, l);
    assert DumpItems([j], l) == n + d + "";
    assert n + d + "" == n + d;
  }

  /** A list of one dict of one string member, at the top level. */
  lemma {:induction false} OneNestedText(k: string, v: string)
    requires forall i :: 0 <= i < |k| ==> Unescaped(k[i])
    requires forall i :: 0 <= i < |v| ==> Unescaped(v[i])
    ensures Dumps(Arr([Obj([Member(k, Str(v))])]))
         == "["
          + "\n  {"
          + ("\n    " + ("\"" + k + "\": \"" + v + "\""))
          + "\n  }"
          + "\n]"
  {
    var m := Member(k, Str(v));
    var n0, n1, n2 := Newline(0), Newline(1), Newline(2);
    var d := "\"" + k + "\": \"" + v + "\"";
    assert Dumps(Arr([Obj([m])])) == "[" + (n1 + "{") + (n2 + d) + (n1 + "}") + (n0 + "]") by {
      StringMemberText(k, v, 2);
      OneMemberText(m, 1);
      OneItemText(Obj([m]), 0);
      RegroupOne("[", n1, "{", n2, d, "}", n0, "]");
    }
    Newlines();
    ClosingLines();
  }

  /** Proof step: regrouping a concatenation, kept apart so the solver need not search for it. */
  lemma RegroupOne(o: string, n: string, o2: string, n2: string, d: string, z2: string, m: string, z: string)
    ensures o + n + (o2 + n2 + d + n + z2) + m + z == o + (n + o2) + (n2 + d) + (n + z2) + (m + z)
  {
  }

  /**
    The layout of `indent=2` and `ensure_ascii=False` on
    `[{"k": "\u00e9"}]`, line by line: the dict on its own line two spaces
    in, its member four spaces in, each closing bracket on its own line at
    its opener's indentation, and `\u00e9` written as itself.
   */
  lemma {:induction false} DumpsExample()
    ensures Dumps(Arr([Obj([Member("k", Str("\U{e9}"))])]))
         == "["
          + "\n  {"
          + "\n    \"k\": \"\U{e9}\""
          + "\n  }"
          + "\n]"
  {
    OneNestedText("k", "\U{e9}");
    ExampleLine();
  }

  /** Proof step: literal merges. */
  lemma ExampleLine()
    ensures "\n    " + ("\"" + "k" + "\": \"" + "\U{e9}" + "\"") == "\n    \"k\": \"\U{e9}\""
  {
  }

  /** A member whose value is a dict of one string member, the inner member one level deeper. */
  lemma {:induction false} NestedMemberText(k: string, k2: string, v: string, level: nat)
    requires forall i :: 0 <= i < |k| ==> Unescaped(k[i])
    requires forall i :: 0 <= i < |k2| ==> Unescaped(k2[i])
    requires forall i :: 0 <= i < |v| ==> Unescaped(v[i])
    ensures DumpMember(Member(k, Obj([Member(k2, Str(v))])), level)
         == ("\"" + k + "\": {") + (Newline(level + 1) + ("\"" + k2 + "\": \"" + v + "\"")) + (Newline(level) + "}")
  {
    var inner := Member(k2, Str(v));
    KeyedText(k, Obj([inner]), level);
    OneMemberText(inner, level);
    StringMemberText(k2, v, level + 1);
    Regroup6("\"" + k + "\": ", "{", Newline(level + 1), "\"" + k2 + "\": \"" + v + "\"", Newline(level), "}");
    assert "\"" + k + "\": " + "{" == "\"" + k + "\": {";
  }

  /** Proof step: regrouping a concatenation, kept apart so the solver need not search for it. */
  lemma Regroup6(a: string, o: string, n: string, d: string, m: string, z: string)
    ensures a + (o + n + d + m + z) == (a + o) + (n + d) + (m + z)
  {
  }

  /** A dict of two members whose values are dicts of one string member each, at the top level. */
  lemma {:induction false} TwoNestedText(a: string, b: string, k: string, v: string, w: string)
    requires forall i :: 0 <= i < |a| ==> Unescaped(a[i])
    requires forall i :: 0 <= i < |b| ==> Unescaped(b[i])
    requires forall i :: 0 <= i < |k| ==> Unescaped(k[i])
    requires forall i :: 0 <= i < |v| ==> Unescaped(v[i])
    requires forall i :: 0 <= i < |w| ==> Unescaped(w[i])
    ensures Dumps(Obj([Member(a, Obj([Member(k, Str(v))])), Member(b, Obj([Member(k, Str(w))]))]))
         == "{"
          + ("\n  " + ("\"" + a + "\": {"))
          + ("\n    " + ("\"" + k + "\": \"" + v + "\""))
          + "\n  },"
          + ("\n  " + ("\"" + b + "\": {"))
          + ("\n    " + ("\"" + k + "\": \"" + w + "\""))
          + "\n  }"
          + "\n}"
  {
    var ma, mb := Member(a, Obj([Member(k, Str(v))])), Member(b, Obj([Member(k, Str(w))]));
    NestedMemberText(a, k, v, 1);
    NestedMemberText(b, k, w, 1);
    TwoMembersText(ma, mb, 0);
    var n0, n1, n2 := Newline(0), Newline(1), Newline(2);
    RegroupTwo("{", n1, n2, "\"" + a + "\": {", "\"" + k + "\": \"" + v + "\"", n1 + "}", ",",
               "\"" + b + "\": {", "\"" + k + "\": \"" + w + "\"", n0, "}");
    Newlines();
    ClosingLines();
  }

  /** Proof step: regrouping a concatenation, kept apart so the solver need not search for it. */
  lemma RegroupTwo(o: string, n: string, n2: string, p: string, q: string, r: string, c: string,
                   p2: string, q2: string, m: string, z: string)
    ensures o + n + (p + (n2 + q) + r) + c + n + (p2 + (n2 + q2) + r) + m + z
         == o + (n + p) + (n2 + q) + (r + c) + (n + p2) + (n2 + q2) + r + (m + z)
  {
  }

  /** Proof step: literal merges. */
  lemma ClosingLines()
    ensures "\n  " + "}" + "," == "\n  },"
    ensures "\n  " + "}" == "\n  }"
    ensures "\n  " + "{" == "\n  {"
    ensures "\n" + "}" == "\n}"
    ensures "\n" + "]" == "\n]"
  {
  }

  /**
    `{"x": {"v": "1"}, "y": {"v": "2"}}` with `indent=2`, line by line:
    each member on its own line two spaces in, the inner members four
    spaces in, a comma right after the first member's closing brace.
   */
  lemma {:induction false} DumpsNestedExample()
    ensures Dumps(Obj([Member("x", Obj([Member("v", Str("1"))])), Member("y", Obj([Member("v", Str("2"))]))]))
         == "{"
          + "\n  \"x\": {"
          + "\n    \"v\": \"1\""
          + "\n  },"
          + "\n  \"y\": {"
          + "\n    \"v\": \"2\""
          + "\n  }"
          + "\n}"
  {
    TwoNestedText("x", "y", "v", "1", "2");
    NestedExampleLines();
  }

  /** Proof step: literal merges. */
  lemma NestedExampleLines()
    ensures "\n  " + ("\"" + "x" + "\": {") == "\n  \"x\": {"
    ensures "\n  " + ("\"" + "y" + "\": {") == "\n  \"y\": {"
    ensures "\n    " + ("\"" + "v" + "\": \"" + "1" + "\"") == "\n    \"v\": \"1\""
    ensures "\n    " + ("\"" + "v" + "\": \"" + "2" + "\"") == "\n    \"v\": \"2\""
  {
  }

  // Lists and dicts of any length.

  /** `sep.join(ts)` for a non-empty list of texts. */
  function JoinWith(sep: string, ts: seq<string>): string
    requires ts != []
  {
    if |ts| == 1 then ts[0] else ts[0] + sep + JoinWith(sep, ts[1..])
  }

  /** The texts of the elements of a list at `level`. */
  function DumpAll(items: seq<Json>, level: nat): (ts: seq<string>)
    ensures |ts| == |items| && forall i :: 0 <= i < |items| ==> ts[i] == Dump(items[i], level)
  {
    if items == [] then [] else [Dump(items[0], level)] + DumpAll(items[1..], level)
  }

  /** The texts of the members of a dict at `level`. */
  function DumpAllMembers(ms: seq<Member>, level: nat): (ts: seq<string>)
    ensures |ts| == |ms| && forall i :: 0 <= i < |ms| ==> ts[i] == DumpMember(ms[i], level)
  {
    if ms == [] then [] else [DumpMember(ms[0], level)] + DumpAllMembers(ms[1..], level)
  }

  /**
    A non-empty list is written as CPython's encoder writes it: `[`, a line
    break with the indentation of the next level, the texts of the elements
    joined by `,` and that same line break, then a line break at the list's
    own level and `]`.
   */
  lemma {:induction false} ItemsJoined(items: seq<Json>, level: nat)
    requires items != []
    ensures Dump(Arr(items), level)
         == "[" + Newline(level + 1) + JoinWith("," + Newline(level + 1), DumpAll(items, level + 1)) + Newline(level) + "]"
  {
    DumpItemsJoined(items, level + 1);
  }

  lemma {:induction false} DumpItemsJoined(items: seq<Json>, l: nat)
    requires items != []
    ensures DumpItems(items, l) == Newline(l) + JoinWith("," + Newline(l), DumpAll(items, l))
    decreases |items|
  {
    var n, ts := Newline(l), DumpAll(items, l);
    if |items| == 1 {
      assert n + ts[0] + "" == n + ts[0];
    } else {
      DumpItemsJoined(items[1..], l);
      assert ts[1..] == DumpAll(items[1..], l);
      RegroupJoin(n, ts[0], ",", JoinWith("," + n, ts[1..]));
    }
  }

  /** The same for a non-empty dict and its members. */
  lemma {:induction false} MembersJoined(ms: seq<Member>, level: nat)
    requires ms != []
    ensures Dump(Obj(ms), level)
         == "{" + Newline(level + 1) + JoinWith("," + Newline(level + 1), DumpAllMembers(ms, level + 1)) + Newline(level) + "}"
  {
    DumpMembersJoined(ms, level + 1);
  }

  lemma {:induction false} DumpMembersJoined(ms: seq<Member>, l: nat)
    requires ms != []
    ensures DumpMembers(ms, l) == Newline(l) + JoinWith("," + Newline(l), DumpAllMembers(ms, l))
    decreases |ms|
  {
    var n, ts := Newline(l), DumpAllMembers(ms, l);
    if |ms| == 1 {
      assert n + ts[0] + "" == n + ts[0];
    } else {
      DumpMembersJoined(ms[1..], l);
      assert ts[1..] == DumpAllMembers(ms[1..], l);
      RegroupJoin(n, ts[0], ",", JoinWith("," + n, ts[1..]));
    }
  }

  /** Proof step: regrouping a concatenation, kept apart so the solver need not search for it. */
  lemma RegroupJoin(n: string, t: string, c: string, j: string)
    ensures n + t + (c + (n + j)) == n + (t + (c + n) + j)
  {
  }

  // A list of two records, as listdict and pandas mode write it.

  /** A dict of two string members whose keys and values need no escapes, standing one level in. */
  lemma {:induction false} RecordText(h1: string, h2: string, a: string, b: string)
    requires forall i :: 0 <= i < |h1| ==> Unescaped(h1[i])
    requires forall i :: 0 <= i < |h2| ==> Unescaped(h2[i])
    requires forall i :: 0 <= i < |a| ==> Unescaped(a[i])
    requires forall i :: 0 <= i < |b| ==> Unescaped(b[i])
    ensures Dump(Obj([Member(h1, Str(a)), Member(h2, Str(b))]), 1)
         == "{"
          + ("\n    " + (("\"" + h1 + "\": \"" + a + "\"") + ","))
          + ("\n    " + ("\"" + h2 + "\": \"" + b + "\""))
          + "\n  }"
  {
    var m1, m2 := Member(h1, Str(a)), Member(h2, Str(b));
    var d1, d2 := "\"" + h1 + "\": \"" + a + "\"", "\"" + h2 + "\": \"" + b + "\"";
    var n1, n2 := Newline(1), Newline(2);
    assert Dump(Obj([m1, m2]), 1) == "{" + (n2 + (d1 + ",")) + (n2 + d2) + (n1 + "}") by {
      StringMemberText(h1, a, 2);
      StringMemberText(h2, b, 2);
      TwoMembersText(m1, m2, 1);
      RegroupRecord("{", n2, d1, ",", d2, n1, "}");
    }
    Newlines();
    ClosingLines();
  }

  /** Proof step: regrouping a concatenation, kept apart so the solver need not search for it. */
  lemma RegroupRecord(o: string, n: string, d1: string, c: string, d2: string, m: string, z: string)
    ensures o + n + d1 + c + n + d2 + m + z == o + (n + (d1 + c)) + (n + d2) + (m + z)
  {
  }

  /** A top-level list of two such dicts, line by line, with `  },` between them. */
  lemma {:induction false} TwoRecordsText(h1: string, h2: string, a1: string, b1: string, a2: string, b2: string)
    requires forall i :: 0 <= i < |h1| ==> Unescaped(h1[i])
    requires forall i :: 0 <= i < |h2| ==> Unescaped(h2[i])
    requires forall i :: 0 <= i < |a1| ==> Unescaped(a1[i])
    requires forall i :: 0 <= i < |b1| ==> Unescaped(b1[i])
    requires forall i :: 0 <= i < |a2| ==> Unescaped(a2[i])
    requires forall i :: 0 <= i < |b2| ==> Unescaped(b2[i])
    ensures Dumps(Arr([Obj([Member(h1, Str(a1)), Member(h2, Str(b1))]), Obj([Member(h1, Str(a2)), Member(h2, Str(b2))])]))
         == "["
          + "\n  {"
          + ("\n    " + (("\"" + h1 + "\": \"" + a1 + "\"") + ","))
          + ("\n    " + ("\"" + h2 + "\": \"" + b1 + "\""))
          + "\n  },"
          + "\n  {"
          + ("\n    " + (("\"" + h1 + "\": \"" + a2 + "\"") + ","))
          + ("\n    " + ("\"" + h2 + "\": \"" + b2 + "\""))
          + "\n  }"
          + "\n]"
  {
    var o1, o2 := Obj([Member(h1, Str(a1)), Member(h2, Str(b1))]), Obj([Member(h1, Str(a2)), Member(h2, Str(b2))]);
    RecordText(h1, h2, a1, b1);
    RecordText(h1, h2, a2, b2);
    TwoItemsLines(o1, o2,
      "\n    " + (("\"" + h1 + "\": \"" + a1 + "\"") + ","), "\n    " + ("\"" + h2 + "\": \"" + b1 + "\""),
      "\n    " + (("\"" + h1 + "\": \"" + a2 + "\"") + ","), "\n    " + ("\"" + h2 + "\": \"" + b2 + "\""));
  }

  /** A top-level list of two values that each take two lines between braces, one level in. */
  lemma {:induction false} TwoItemsLines(o1: Json, o2: Json, p1: string, q1: string, p2: string, q2: string)
    requires Dump(o1, 1) == "{" + p1 + q1 + "\n  }"
    requires Dump(o2, 1) == "{" + p2 + q2 + "\n  }"
    ensures Dumps(Arr([o1, o2])) == "[" + "\n  {" + p1 + q1 + "\n  }," + "\n  {" + p2 + q2 + "\n  }" + "\n]"
  {
    var n0, n1 := Newline(0), Newline(1);
    assert Dumps(Arr([o1, o2])) == "[" + (n1 + "{") + p1 + q1 + ("\n  }" + ",") + (n1 + "{") + p2 + q2 + "\n  }" + (n0 + "]") by {
      TwoItemsText(o1, o2, 0);
      RegroupList("[", n1, "{", p1, q1, "\n  }", ",", p2, q2, n0, "]");
    }
    Newlines();
    ClosingLines();
    CommaLine();
  }

  /** Proof step: regrouping a concatenation, kept apart so the solver need not search for it. */
  lemma RegroupList(o: string, n: string, b: string, p1: string, q1: string, e: string, c: string,
                    p2: string, q2: string, m: string, z: string)
    ensures o + n + (b + p1 + q1 + e) + c + n + (b + p2 + q2 + e) + m + z
         == o + (n + b) + p1 + q1 + (e + c) + (n + b) + p2 + q2 + e + (m + z)
  {
  }

  /** Proof step: a literal merge. */
  lemma CommaLine()
    ensures "\n  }" + "," == "\n  },"
  {
  }

  // ---------------------------------------------------------------------
  // Decoder

  /** Insignificant whitespace between tokens. */
  predicate IsWs(c: char) {
    c == ' ' || c == '\t' || c == '\n' || c == '\r'
  }

  function SkipWs(t: string): (u: string)
    ensures |u| <= |t|
    ensures u == [] || !IsWs(u[0])
  {
    if t != [] && IsWs(t[0]) then SkipWs(t[1..]) else t
  }

  function HexValue(c: char): (r: Option<nat>)
    ensures r.Some? ==> r.value < 16
  {
    if '0' <= c <= '9' then Some(c as int - '0' as int)
    else if 'a' <= c <= 'f' then Some(c as int - 'a' as int + 10)
    else if 'A' <= c <= 'F' then Some(c as int - 'A' as int + 10)
    else None
  }

  /** The character written as four hexadecimal digits (surrogates are not decoded). */
  function HexChar(h: string): Option<char>
    requires |h| == 4
  {
    match (HexValue(h[0]), HexValue(h[1]), HexValue(h[2]), HexValue(h[3]))
    case (Some(a), Some(b), Some(c), Some(d)) =>
      var n := ((a * 16 + b) * 16 + c) * 16 + d;
      if n < 0xD800 || 0xE000 <= n then Some(n as char) else None
    case _ => None
  }

  /** The character an escape sequence (after its backslash) stands for, and the text after it. */
  function Unescape(t: string): (r: Option<(char, string)>)
    ensures r.Some? ==> |r.value.1| < |t|
  {
    if t == [] then None
    else if t[0] == '"' || t[0] == '\\' || t[0] == '/' then Some((t[0], t[1..]))
    else if t[0] == 'b' then Some((8 as char, t[1..]))
    else if t[0] == 'f' then Some((12 as char, t[1..]))
    else if t[0] == 'n' then Some(('\n', t[1..]))
    else if t[0] == 'r' then Some(('\r', t[1..]))
    else if t[0] == 't' then Some(('\t', t[1..]))
    else if t[0] == 'u' && |t| >= 5 then
      match HexChar(t[1..5])
      case Some(c) => Some((c, t[5..]))
      case None => None
    else None
  }

  /** The rest of a string literal after its opening quote: its value and the text after the closing quote. */
  function ParseStringBody(t: string): (r: Option<(string, string)>)
    ensures r.Some? ==> |r.value.1| < |t|
    decreases |t|
  {
    if t == [] then None
    else if t[0] == '"' then Some(([], t[1..]))
    else if t[0] == '\\' then
      match Unescape(t[1..])
      case None => None
      case Some((c, u)) => PrependChar(c, ParseStringBody(u))
    else if (t[0] as int) < 0x20 then None
    else PrependChar(t[0], ParseStringBody(t[1..]))
  }

  function PrependChar(c: char, r: Option<(string, string)>): Option<(string, string)> {
    match r
    case None => None
    case Some((s, u)) => Some(([c] + s, u))
  }

  /** One value at the start of `t`, and the text after it. */
  function ParseValue(t: string): (r: Option<(Json, string)>)
    ensures r.Some? ==> |r.value.1| < |t|
    decreases |t|, 0
  {
    if t == [] then None
    else if t[0] == '"' then
      match ParseStringBody(t[1..])
      case None => None
      case Some((s, u)) => Some((Str(s), u))
    else if t[0] == '[' then
      var u := SkipWs(t[1..]);
      if u != [] && u[0] == ']' then Some((Arr([]), u[1..]))
      else
        match ParseItems(u)
        case None => None
        case Some((items, w)) => Some((Arr(items), w))
    else if t[0] == '{' then
      var u := SkipWs(t[1..]);
      if u != [] && u[0] == '}' then Some((Obj([]), u[1..]))
      else
        match ParseMembers(u)
        case None => None
        case Some((ms, w)) => Some((Obj(ms), w))
    else None
  }

  /** Values separated by commas, through the closing bracket. */
  function ParseItems(t: string): (r: Option<(seq<Json>, string)>)
    ensures r.Some? ==> |r.value.1| < |t|
    decreases |t|, 1
  {
    match ParseValue(t)
    case None => None
    case Some((v, u)) => ItemsAfter(v, u)
  }

  /** The rest of a list once its value `v` has been read. */
  function ItemsAfter(v: Json, u: string): (r: Option<(seq<Json>, string)>)
    ensures r.Some? ==> |r.value.1| < |u|
    decreases |u|, 2
  {
    var w := SkipWs(u);
    if w == [] then None
    else if w[0] == ']' then Some(([v], w[1..]))
    else if w[0] == ',' then
      match ParseItems(SkipWs(w[1..]))
      case None => None
      case Some((vs, x)) => Some(([v] + vs, x))
    else None
  }

  /** Members separated by commas, through the closing brace. */
  function ParseMembers(t: string): (r: Option<(seq<Member>, string)>)
    ensures r.Some? ==> |r.value.1| < |t|
    decreases |t|, 1
  {
    if t == [] || t[0] != '"' then None
    else
      match ParseStringBody(t[1..])
      case None => None
      case Some((k, u)) =>
        var w := SkipWs(u);
        if w == [] || w[0] != ':' then None
        else
          match ParseValue(SkipWs(w[1..]))
          case None => None
          case Some((v, x)) => MembersAfter(Member(k, v), x)
  }

  /** The rest of a dict once its member `m` has been read. */
  function MembersAfter(m: Member, u: string): (r: Option<(seq<Member>, string)>)
    ensures r.Some? ==> |r.value.1| < |u|
    decreases |u|, 2
  {
    var w := SkipWs(u);
    if w == [] then None
    else if w[0] == '}' then Some(([m], w[1..]))
    else if w[0] == ',' then
      match ParseMembers(SkipWs(w[1..]))
      case None => None
      case Some((ms, x)) => Some(([m] + ms, x))
    else None
  }

  /** `json.loads` for these values: one value surrounded by whitespace only. */
  function Loads(t: string): Option<Json> {
    match ParseValue(SkipWs(t))
    case Some((j, u)) => if SkipWs(u) == [] then Some(j) else None
    case None => None
  }

  // ---------------------------------------------------------------------
  // Round trip

  lemma HexDigitValue(d: nat)
    requires d < 16
    ensures HexValue(HexDigit(d)) == Some(d)
  {
  }

  /** A control character written as `\u00XX` decodes to itself. */
  lemma {:induction false} UnicodeEscapeRead(c: char, t: string)
    requires c as int < 0x20
    ensures Unescape("u00" + [HexDigit(c as int / 16), HexDigit(c as int % 16)] + t) == Some((c, t))
  {
    var hi, lo := c as int / 16, c as int % 16;
    HexDigitValue(hi);
    HexDigitValue(lo);
    var h := "00" + [HexDigit(hi), HexDigit(lo)];
    var u := "u" + h + t;
    assert u[1..5] == h;
    assert HexChar(h) == Some(c);
    assert u[5..] == t;
  }

  /** Decoding an escaped character yields the character. */
  lemma {:induction false} EscapeCharRead(c: char, t: string)
    ensures ParseStringBody(EscapeChar(c) + t) == PrependChar(c, ParseStringBody(t))
  {
    var e := EscapeChar(c);
    if c as int < 0x20 && c != '\n' && c != '\r' && c != '\t' && c as int != 0x08 && c as int != 0x0C {
      var h := [HexDigit(c as int / 16), HexDigit(c as int % 16)];
      assert e == "\\u00" + h;
      assert (e + t)[1..] == "u00" + h + t;
      UnicodeEscapeRead(c, t);
    } else if e[0] == '\\' {
      assert (e + t)[1..] == e[1..] + t;
      assert (e + t)[1..][1..] == t;
    } else {
      assert e == [c];
      assert (e + t)[1..] == t;
    }
  }

  /** The body of a string literal decodes to the string. */
  lemma {:induction false} StringRead(s: string, rest: string)
    ensures ParseStringBody(EscapeString(s) + "\"" + rest) == Some((s, rest))
    decreases s
  {
    if s == [] {
      assert EscapeString(s) + "\"" + rest == "\"" + rest;
    } else {
      var t := EscapeString(s[1..]) + "\"" + rest;
      assert EscapeString(s) + "\"" + rest == EscapeChar(s[0]) + t;
      EscapeCharRead(s[0], t);
      StringRead(s[1..], rest);
      assert [s[0]] + s[1..] == s;
    }
  }

  /** Every value's text starts with a quote, a bracket or a brace. */
  lemma DumpStart(j: Json, level: nat)
    ensures var d := Dump(j, level); d != [] && (d[0] == '"' || d[0] == '[' || d[0] == '{')
  {
  }

  /** Indentation before a token is skipped. */
  lemma {:induction false} SkipWsIndent(level: nat, t: string)
    requires t == [] || !IsWs(t[0])
    ensures SkipWs(Indent(level) + t) == t
  {
    if level == 0 {
      assert Indent(0) + t == t;
    } else {
      SkipWsIndent(level - 1, t);
      var u := Indent(level - 1) + t;
      assert Indent(level) + t == "  " + u;
      assert ("  " + u)[1..] == " " + u;
      assert (" " + u)[1..] == u;
    }
  }

  /** A line break and its indentation before a token are skipped. */
  lemma {:induction false} SkipWsNewline(level: nat, t: string)
    requires t == [] || !IsWs(t[0])
    ensures SkipWs(Newline(level) + t) == t
  {
    SkipWsIndent(level, t);
    assert (Newline(level) + t)[1..] == Indent(level) + t;
  }

  lemma {:induction false} LineSplit(level: nat, head: string, more: string, close: string)
    requires head != [] && !IsWs(head[0])
    ensures SkipWs(Newline(level) + head + more + close) == head + (more + close)
  {
    assert Newline(level) + head + more + close == Newline(level) + (head + (more + close));
    SkipWsNewline(level, head + (more + close));
  }

  lemma Assoc(a: string, b: string, c: string)
    ensures a + b + c == a + (b + c)
  {
  }

  lemma Bracketed(open: string, body: string, nl: string, close: string, rest: string)
    ensures open + body + nl + close + rest == open + (body + (nl + close + rest))
  {
  }

  lemma MemberText(q: string, d: string, x: string)
    ensures ("\"" + q + "\"" + ": " + d) + x == "\"" + (q + "\"" + (": " + (d + x)))
  {
  }

  lemma {:induction false} ColonSpace(y: string)
    requires y != [] && !IsWs(y[0])
    ensures SkipWs(": " + y) == ": " + y
    ensures SkipWs((": " + y)[1..]) == y
  {
    assert (": " + y)[1..] == " " + y;
    assert (" " + y)[1..] == y;
  }

  lemma CommaNext(y: string)
    ensures SkipWs("," + y) == "," + y
    ensures ("," + y)[1..] == y
  {
  }

  lemma ClosingRead(c: char, rest: string)
    ensures ([c] + rest)[1..] == rest
  {
  }

  // Parser steps, each stated on plain strings.

  lemma {:induction false} ParseStrStep(b: string, s: string, rest: string)
    requires ParseStringBody(b) == Some((s, rest))
    ensures ParseValue("\"" + b) == Some((Str(s), rest))
  {
    assert ("\"" + b)[1..] == b;
  }

  lemma {:induction false} ParseEmptyStep(rest: string)
    ensures ParseValue("[]" + rest) == Some((Arr([]), rest))
    ensures ParseValue("{}" + rest) == Some((Obj([]), rest))
  {
    assert ("[]" + rest)[1..] == "]" + rest;
    assert ("{}" + rest)[1..] == "}" + rest;
    ClosingRead(']', rest);
    ClosingRead('}', rest);
  }

  lemma {:induction false} ParseArrStep(b: string, items: seq<Json>, rest: string)
    requires var u := SkipWs(b); u != [] && u[0] != ']' && ParseItems(u) == Some((items, rest))
    ensures ParseValue("[" + b) == Some((Arr(items), rest))
  {
    assert ("[" + b)[1..] == b;
  }

  lemma {:induction false} ParseObjStep(b: string, ms: seq<Member>, rest: string)
    requires var u := SkipWs(b); u != [] && u[0] != '}' && ParseMembers(u) == Some((ms, rest))
    ensures ParseValue("{" + b) == Some((Obj(ms), rest))
  {
    assert ("{" + b)[1..] == b;
  }

  lemma {:induction false} ItemsAfterClose(items: seq<Json>, x: string, rest: string)
    requires |items| == 1 && SkipWs(x) == "]" + rest
    ensures ItemsAfter(items[0], x) == Some((items, rest))
  {
    ClosingRead(']', rest);
    assert [items[0]] == items;
  }

  lemma {:induction false} ItemsAfterComma(items: seq<Json>, y: string, rest: string)
    requires |items| > 1 && ParseItems(SkipWs(y)) == Some((items[1..], rest))
    ensures ItemsAfter(items[0], "," + y) == Some((items, rest))
  {
    CommaNext(y);
    assert [items[0]] + items[1..] == items;
  }

  lemma {:induction false} MembersAfterClose(ms: seq<Member>, x: string, rest: string)
    requires |ms| == 1 && SkipWs(x) == "}" + rest
    ensures MembersAfter(ms[0], x) == Some((ms, rest))
  {
    ClosingRead('}', rest);
    assert [ms[0]] == ms;
  }

  lemma {:induction false} MembersAfterComma(ms: seq<Member>, y: string, rest: string)
    requires |ms| > 1 && ParseMembers(SkipWs(y)) == Some((ms[1..], rest))
    ensures MembersAfter(ms[0], "," + y) == Some((ms, rest))
  {
    CommaNext(y);
    assert [ms[0]] + ms[1..] == ms;
  }

  lemma {:induction false} ParseMemberStep(b: string, y: string, x: string, m: Member)
    requires ParseStringBody(b) == Some((m.key, ": " + y))
    requires SkipWs(": " + y) == ": " + y && SkipWs((": " + y)[1..]) == y
    requires ParseValue(y) == Some((m.value, x))
    ensures ParseMembers("\"" + b) == MembersAfter(m, x)
  {
    assert ("\"" + b)[1..] == b;
  }

  // Each piece of the serialised text read back.

  /** A string value reads back as itself. */
  lemma {:induction false} StrRead(s: string, level: nat, rest: string)
    ensures ParseValue(Dump(Str(s), level) + rest) == Some((Str(s), rest))
  {
    var b := EscapeString(s) + "\"" + rest;
    assert Dump(Str(s), level) + rest == "\"" + b;
    StringRead(s, rest);
    ParseStrStep(b, s, rest);
  }

  /** An empty list or dict reads back as itself. */
  lemma {:induction false} EmptyRead(level: nat, rest: string)
    ensures ParseValue(Dump(Arr([]), level) + rest) == Some((Arr([]), rest))
    ensures ParseValue(Dump(Obj([]), level) + rest) == Some((Obj([]), rest))
  {
    assert Dump(Arr([]), level) + rest == "[]" + rest;
    assert Dump(Obj([]), level) + rest == "{}" + rest;
    ParseEmptyStep(rest);
  }

  /** A list whose elements decode reads back as that list. */
  lemma {:induction false} ArrStep(items: seq<Json>, level: nat, rest: string)
    requires items != []
    requires var u := SkipWs(DumpItems(items, level + 1) + (Newline(level) + "]" + rest));
      u != [] && u[0] != ']' && ParseItems(u) == Some((items, rest))
    ensures ParseValue(Dump(Arr(items), level) + rest) == Some((Arr(items), rest))
  {
    var b := DumpItems(items, level + 1) + (Newline(level) + "]" + rest);
    assert Dump(Arr(items), level) == "[" + DumpItems(items, level + 1) + Newline(level) + "]";
    Bracketed("[", DumpItems(items, level + 1), Newline(level), "]", rest);
    ParseArrStep(b, items, rest);
  }

  /** A dict whose members decode reads back as that dict. */
  lemma {:induction false} ObjStep(ms: seq<Member>, level: nat, rest: string)
    requires ms != []
    requires var u := SkipWs(DumpMembers(ms, level + 1) + (Newline(level) + "}" + rest));
      u != [] && u[0] != '}' && ParseMembers(u) == Some((ms, rest))
    ensures ParseValue(Dump(Obj(ms), level) + rest) == Some((Obj(ms), rest))
  {
    var b := DumpMembers(ms, level + 1) + (Newline(level) + "}" + rest);
    assert Dump(Obj(ms), level) == "{" + DumpMembers(ms, level + 1) + Newline(level) + "}";
    Bracketed("{", DumpMembers(ms, level + 1), Newline(level), "}", rest);
    ParseObjStep(b, ms, rest);
  }

  /** A member whose value decodes is read, leaving what follows it. */
  lemma {:induction false} MemberRead(m: Member, level: nat, x: string)
    requires ParseValue(Dump(m.value, level) + x) == Some((m.value, x))
    ensures ParseMembers(DumpMember(m, level) + x) == MembersAfter(m, x)
  {
    var d := Dump(m.value, level);
    var y := d + x;
    DumpStart(m.value, level);
    var q := EscapeString(m.key);
    var b := q + "\"" + (": " + y);
    assert DumpMember(m, level) == "\"" + q + "\"" + ": " + d;
    MemberText(q, d, x);
    StringRead(m.key, ": " + y);
    ColonSpace(y);
    ParseMemberStep(b, y, x, m);
  }

  /** The text after the first element of a list, up to its closing text. */
  function ItemsTail(items: seq<Json>, level: nat, close: string): string
    requires items != []
  {
    if |items| == 1 then close else "," + (DumpItems(items[1..], level) + close)
  }

  /** The text after the first member of a dict, up to its closing text. */
  function MembersTail(ms: seq<Member>, level: nat, close: string): string
    requires ms != []
  {
    if |ms| == 1 then close else "," + (DumpMembers(ms[1..], level) + close)
  }

  /** The elements of a non-empty list, past the line break, start with the first element. */
  lemma {:induction false} ItemsUnfold(items: seq<Json>, level: nat, close: string)
    requires items != []
    ensures SkipWs(DumpItems(items, level) + close) == Dump(items[0], level) + ItemsTail(items, level, close)
  {
    var head := Dump(items[0], level);
    DumpStart(items[0], level);
    var more := if |items| == 1 then "" else "," + DumpItems(items[1..], level);
    assert DumpItems(items, level) == Newline(level) + head + more;
    LineSplit(level, head, more, close);
    if |items| > 1 {
      Assoc(",", DumpItems(items[1..], level), close);
    }
  }

  /** The members of a non-empty dict, past the line break, start with the first member. */
  lemma {:induction false} MembersUnfold(ms: seq<Member>, level: nat, close: string)
    requires ms != []
    ensures SkipWs(DumpMembers(ms, level) + close) == DumpMember(ms[0], level) + MembersTail(ms, level, close)
  {
    var head := DumpMember(ms[0], level);
    assert head[0] == '"';
    var more := if |ms| == 1 then "" else "," + DumpMembers(ms[1..], level);
    assert DumpMembers(ms, level) == Newline(level) + head + more;
    LineSplit(level, head, more, close);
    if |ms| > 1 {
      Assoc(",", DumpMembers(ms[1..], level), close);
    }
  }

  // The round trip proper, by mutual induction on the value.

  /** The text of a value decodes to that value, leaving what follows it. */
  lemma {:induction false} ValueRead(j: Json, level: nat, rest: string)
    ensures ParseValue(Dump(j, level) + rest) == Some((j, rest))
    decreases j, 2
  {
    match j
    case Str(s) =>
      StrRead(s, level, rest);
    case Arr(items) =>
      if items == [] {
        EmptyRead(level, rest);
      } else {
        ArrRead(items, level, rest);
      }
    case Obj(ms) =>
      if ms == [] {
        EmptyRead(level, rest);
      } else {
        ObjRead(ms, level, rest);
      }
  }

  /** A non-empty list reads back as itself. */
  lemma {:induction false} ArrRead(items: seq<Json>, level: nat, rest: string)
    requires items != []
    ensures ParseValue(Dump(Arr(items), level) + rest) == Some((Arr(items), rest))
    decreases items, 1
  {
    var close := Newline(level) + "]" + rest;
    Assoc(Newline(level), "]", rest);
    SkipWsNewline(level, "]" + rest);
    ItemsRead(items, level + 1, close, rest);
    ArrStep(items, level, rest);
  }

  /** A non-empty dict reads back as itself. */
  lemma {:induction false} ObjRead(ms: seq<Member>, level: nat, rest: string)
    requires ms != []
    ensures ParseValue(Dump(Obj(ms), level) + rest) == Some((Obj(ms), rest))
    decreases ms, 1
  {
    var close := Newline(level) + "}" + rest;
    Assoc(Newline(level), "}", rest);
    SkipWsNewline(level, "}" + rest);
    MembersRead(ms, level + 1, close, rest);
    ObjStep(ms, level, rest);
  }

  /** The elements of a list, followed by its closing bracket, decode to the elements. */
  lemma {:induction false} ItemsRead(items: seq<Json>, level: nat, close: string, rest: string)
    requires items != []
    requires SkipWs(close) == "]" + rest
    ensures var u := SkipWs(DumpItems(items, level) + close);
      u != [] && u[0] != ']' && ParseItems(u) == Some((items, rest))
    decreases items, 0
  {
    var x := ItemsTail(items, level, close);
    ItemsUnfold(items, level, close);
    DumpStart(items[0], level);
    ValueRead(items[0], level, x);
    if |items| == 1 {
      ItemsAfterClose(items, x, rest);
    } else {
      ItemsRead(items[1..], level, close, rest);
      ItemsAfterComma(items, DumpItems(items[1..], level) + close, rest);
    }
  }

  /** The members of a dict, followed by its closing brace, decode to the members. */
  lemma {:induction false} MembersRead(ms: seq<Member>, level: nat, close: string, rest: string)
    requires ms != []
    requires SkipWs(close) == "}" + rest
    ensures var u := SkipWs(DumpMembers(ms, level) + close);
      u != [] && u[0] != '}' && ParseMembers(u) == Some((ms, rest))
    decreases ms, 0
  {
    assert ms[0] in ms;
    var x := MembersTail(ms, level, close);
    MembersUnfold(ms, level, close);
    ValueRead(ms[0].value, level, x);
    MemberRead(ms[0], level, x);
    if |ms| == 1 {
      MembersAfterClose(ms, x, rest);
    } else {
      MembersRead(ms[1..], level, close, rest);
      MembersAfterComma(ms, DumpMembers(ms[1..], level) + close, rest);
    }
  }

  /** `json.loads(json.dumps(j, indent=2, ensure_ascii=False)) == j` */
  lemma {:induction false} LoadsDumps(j: Json)
    ensures Loads(Dumps(j)) == Some(j)
  {
    ValueRead(j, 0, []);
    assert Dump(j, 0) + [] == Dump(j, 0);
    DumpStart(j, 0);
  }

  /** Different values serialise to different texts. */
  lemma {:induction false} DumpsInjective(j: Json, k: Json)
    requires Dumps(j) == Dumps(k)
    ensures j == k
  {
    LoadsDumps(j);
    LoadsDumps(k);
  }
}
