# txt2python, modelled in Dafny

txt2python turns pasted comma-separated text into Python source code. It
works in two pure stages:

- `parse_csv(text, has_header)` works in four steps:
  - It normalises line endings and strips the text.
  - It reads the text with `csv.reader(..., skipinitialspace=True)`.
  - It strips every field and drops the records with no content.
  - It makes the table rectangular. Missing header names become `col_<n>` and short rows are padded with `""`.
- `generate_code(headers, rows, mode)` builds records with
  `to_list_of_dicts` (`dict(zip(headers, r))` per row). It then emits one of
  three templates around `json.dumps(..., indent=2, ensure_ascii=False)`:
  - `listdict`: `data = [...]`;
  - `dict`: `data = {...}`, keyed by the first column;
  - any other mode: a pandas script.

The model is a set of Dafny modules of functions and lemmas, matching the
program, which has no mutable state:

| module | models |
|---|---|
| `Wrappers` | `Option` and `Result` |
| `Text` | Python's `str.isspace`/`str.strip`, the two `str.replace` calls on line endings, `str(n)` for the column numbers |
| `CsvReader` | CPython's `_csv` reader state machine for the excel dialect with `skipinitialspace`, fed line by line as `io.StringIO` does; a quoting writer and a comma joiner whose text it reads back |
| `Table` | `parse_csv`: content, record filter, rectangular shape |
| `OrderedDict` | Python dicts as insertion-ordered association lists: `dict(pairs)`, `get`, the key-removing comprehension |
| `Json` | `json.dumps(indent=2, ensure_ascii=False)` for string-leaved lists and objects, with a decoder that inverts it |
| `CodeGen` | `to_list_of_dicts`, the dict-mode body, `generate_code` and its templates |

The main results:
- `parse_csv` always returns a rectangular table. It pads rows and never
  truncates them, keeps records in order, and builds its headers as the
  source does.
- The reader never fails on the text `parse_csv` gives it.
- Text written by the quoting writer reads back to exactly its records,
  provided every record has at least one field.
- Comma-joined lines of stripped plain fields (empty fields included), with
  or without a space after each comma, read back to their fields.
- The serialised text has the exact layout of `indent=2`, and
  `ensure_ascii=False` writes every non-ASCII character as itself.
- Every generated literal decodes back to exactly the records (or the
  dict-mode body) it was built from.

## Model

| member | source | states |
|---|---|---|
| Text.Strip | app/main.py:23 | `strip()` returns the slice of the text between its leading and trailing whitespace. The result starts and ends with a non-space, is empty exactly when the text is blank, and is the text itself when the text is already stripped |
| Text.NormalizeIsOnePass | app/main.py:23 | the two chained replacements equal a one-pass rewrite: CR LF becomes LF, a lone CR becomes LF, every other character is kept |
| Text.NormalizeNewlinesSpec | app/main.py:23 | no CR survives normalisation, and text without CR is left unchanged |
| Text.NormalizeNewlines | app/main.py:23 | the normalised text has no CR and is no longer than the input |
| Text.NatToString | app/main.py:36 | `str(n)` is a non-empty string of decimal digits with no leading zero, except for `0` itself |
| Text.DecimalRoundTrip | app/main.py:36 | the decimal digits of `str(n)` denote `n` again |
| Text.NatToStringInjective | app/main.py:36 | different numbers render as different strings |
| Text.IsSpace | app/main.py:23-26 | space, tab, LF and CR count as whitespace for `strip()`, and no printable ASCII character other than the space does |
| CsvReader.Feed | app/main.py:24-25 | a reader that is not eating a line break never fails on text without CR, and is not left eating one |
| CsvReader.ReadRecords | app/main.py:24-25 | reading text without CR never raises |
| CsvReader.ReadWrittenRecords | app/main.py:25 | non-empty records, each field quoted with its quotes doubled, joined by commas and LF, read back exactly, whatever their fields contain (commas, quotes, line breaks, spaces) |
| CsvReader.ReadJoinedLines | app/main.py:25 | plain records joined by commas and LF read back as the same records, each field without its leading spaces (`skipinitialspace`) |
| Table.Content | app/main.py:23 | the text handed to the reader contains no CR |
| Table.HasContent | app/main.py:26 | `any(c.strip() for c in r)` holds exactly when some field is not blank |
| Table.StripAll | app/main.py:26 | stripping a row's fields keeps their number and leaves every field stripped |
| Table.KeptRows | app/main.py:26 | the filter keeps no more rows than there are records. Every kept row has a non-blank field and only stripped fields |
| Table.KeptRowsOne | app/main.py:26 | a record is kept, with each field stripped, exactly when one of its fields is not blank |
| Table.KeptRowsAppend | app/main.py:26 | filtering distributes over concatenation, so kept rows stay in input order |
| Table.KeptRowsNone | app/main.py:26 | no record is kept exactly when every field of every record is blank |
| Table.KeptRowsIdentity | app/main.py:26 | records that all have content and stripped fields are kept unchanged |
| Table.ParseCsvBlank | app/main.py:23-29 | text that is blank after normalisation gives no headers and no rows |
| Table.ParseCsvEmpty | app/main.py:26-29 | the result is empty exactly when every field of every record the reader yields is blank |
| Table.ShapeEmpty | app/main.py:28-43 | the headers are empty exactly when no row is kept, and then the rows are empty too |
| Table.Shape | app/main.py:28-43 | every row has exactly as many fields as there are headers, in both header settings |
| Table.ParseCsv | app/main.py:16-43 | `parse_csv` returns a rectangular table, and it has no headers exactly when it is the empty table (no headers, no rows) |
| Table.MaxLen | app/main.py:40 | the result bounds every row's length and is reached by some row; it is 0 when there are no rows |
| Table.Blanks | app/main.py:37 | `[""] * n` has `max(n, 0)` fields, all empty |
| Table.ShapeWidth | app/main.py:35-40 | the width bounds every kept row (the header row included) and some kept row reaches it, so no row is cut |
| Table.ShapeRows | app/main.py:32-42 | there are as many rows as kept rows after the header (or as all kept rows). Each row is its kept row followed only by empty fields |
| Table.ShapeHeaders | app/main.py:32-41 | with a header row the headers are that row unchanged, then `col_<h+1>..col_<width>`. Without one they are `col_1..col_<width>` |
| Table.ShapeHeaderOnly | app/main.py:32-37 | a header row alone gives that header and no rows |
| Table.ColNameInjective | app/main.py:36 | the synthesised names `col_<i+1>` are pairwise distinct |
| Table.ColName | app/main.py:36 | the synthesised name for position `i` is `col_` followed by `str(i+1)` |
| Table.ColNames | app/main.py:36-41 | `[f"col_{i+1}" for i in range(lo, hi)]` has `hi - lo` names (none when `lo >= hi`), each starting with `col_`. Table.ShapeHeaders and Table.ColNamesDistinct say more |
| Table.ColNamesDistinct | app/main.py:36-41 | the synthesised header names are pairwise distinct |
| Table.Pad | app/main.py:37 | `r + [""] * (width - len(r))` has `max(len(r), width)` fields: `r` itself, then only empty fields |
| Table.PadAll | app/main.py:37-42 | padding keeps the number of rows; every padded row is at least `width` long, starts with its row, and is exactly `width` long when its row was not longer |
| Table.Records | app/main.py:24-25 | the reader never fails on the content, so `list(reader)` is well defined, and blank text gives no records. Table.JoinedKeptRecords and CsvReader.ReadJoinedLines say more |
| Table.KeptRecords | app/main.py:26 | the comprehension keeps no more rows than the reader yields, and each kept row has a non-blank field and only stripped fields |
| Table.JoinedKeptRecords | app/main.py:23-26 | the text of plain rows with stripped fields, joined by commas and LF, is read and filtered back to those rows |
| Table.ParseJoinedWithHeader | app/main.py:31-38 | with a header row, that text of a one-width table parses to its first row as headers and the rest as rows |
| Table.ParseJoinedWithoutHeader | app/main.py:39-43 | without a header row, the same text parses to `col_1..col_<width>` over all its rows |
| Table.SpacedKeptRecords | app/main.py:23-26 | for plain rows with stripped fields, empty fields included, writing a space after every comma changes nothing. The reader skips each space, and a lone space before an empty field is read as that empty field. If the text ends in such a space, `strip()` has removed it first. The same rows come back |
| Table.TrimmedRecords | app/main.py:23-25 | plain rows whose text ends in a lone space after the last comma read as the rows with that field empty: `strip()` takes the space and the reader sees the same records |
| Table.ContentTrailingSpace | app/main.py:23 | a space after stripped text without CR never reaches the reader |
| Text.StripTrailingSpace | app/main.py:23 | `strip()` removes one trailing space from a non-empty stripped string and nothing else |
| Table.ParseSpacedWithHeader | app/main.py:31-38 | with a header row, the text of a one-width table of plain rows (empty fields included) with `, ` between fields parses to its first row as headers and the rest as rows |
| Table.ParseSpacedWithoutHeader | app/main.py:39-43 | the same text parses, without a header row, to `col_1..col_<width>` over all its rows |
| Table.SpacedEmptyFieldExample | app/main.py:23-38 | `a, b / 1, ` with a header row gives headers `a, b` and the one row `1, ""`: the empty last field survives the `strip()` of the whole text |
| Table.RaggedExample | app/main.py:31-38 | `A,B / 1 / 2,3,4` with a header row gives headers `A, B, col_3` and rows `1,"",""` and `2,3,4` |
| Table.SpacedExampleWithHeader | app/main.py:31-38 | `Name, Age / Alice, 31 / Bob, 29` with a header row gives headers `Name, Age` and rows `Alice, 31` and `Bob, 29` |
| Table.SpacedExampleWithoutHeader | app/main.py:39-43 | the same text without a header row gives headers `col_1, col_2` over all three lines |
| OrderedDict.Get | app/main.py:71 | `d.get(k)` finds nothing exactly when `k` is not a key |
| OrderedDict.GetAt | app/main.py:71 | in a dict, the entry at each position is what its key looks up |
| OrderedDict.Put | app/main.py:47 | assigning to a dict appends a new key at the end and leaves the key order alone for an existing key; it keeps the keys distinct |
| OrderedDict.PutGet | app/main.py:47 | after assigning `v` to `k`, `k` looks up `v` and every other key looks up what it did before |
| OrderedDict.FromPairs | app/main.py:47 | `dict(pairs)` has distinct keys, and its keys are exactly the keys among the pairs |
| OrderedDict.FromPairsKeyOrder | app/main.py:47 | the keys of `dict(pairs)` stand in the order of their first occurrence among the pairs |
| OrderedDict.FromPairsLastWins | app/main.py:47 | a key of `dict(pairs)` holds the value of the last pair with that key |
| OrderedDict.FromDistinctPairs | app/main.py:47 | pairs with distinct keys make a dict entry for entry |
| OrderedDict.WithoutEntries | app/main.py:71 | `{k2: v for k2, v in d.items() if k2 != k}` holds exactly the entries of `d` whose key is not `k` |
| OrderedDict.Without | app/main.py:71 | the key-removing comprehension yields no more entries than the dict has, and none of them has the removed key |
| OrderedDict.WithoutAbsent | app/main.py:71 | removing an absent key changes nothing |
| OrderedDict.WithoutAt | app/main.py:71 | removing a key of a dict removes exactly its entry and keeps the others in order |
| OrderedDict.WithoutDistinct | app/main.py:71 | the remaining entries still have distinct keys |
| CodeGen.Zip | app/main.py:47 | `zip(headers, r)` pairs the headers with the cells position by position and stops at the shorter one |
| CodeGen.ToRecord | app/main.py:47 | `dict(zip(headers, r))` has distinct keys, each of them a header |
| CodeGen.ToListOfDicts | app/main.py:46-47 | one record per row, in row order, each `dict(zip(headers, row))` |
| CodeGen.RecordKeys | app/main.py:47 | a record has distinct keys, and they are exactly the headers that have a cell |
| CodeGen.RecordKeysFull | app/main.py:47 | a row at least as long as the headers gives a record keyed by every header |
| CodeGen.RecordKeyOrder | app/main.py:47 | a record's keys stand in the order of their first occurrence among the headers |
| CodeGen.RecordLastWins | app/main.py:47 | a duplicated header holds the cell at its last occurrence |
| CodeGen.RecordDistinct | app/main.py:47 | with distinct headers the record is the zipped pairs themselves |
| CodeGen.KeyValue | app/main.py:71 | `str(r.get(key, ""))` is the record's value for the key, or `""` when the key is absent |
| CodeGen.BodyPairs | app/main.py:71 | one pair per record, in order: its key value and the record without the key column |
| CodeGen.DictBody | app/main.py:71 | the dict-mode body has distinct keys, and every record's key value is one of them |
| CodeGen.DictBodyKeys | app/main.py:71 | the dict-mode body has distinct keys, and a string is a key exactly when some record has it as its key value |
| CodeGen.DictBodyKeyOrder | app/main.py:71 | the body's keys stand in the order in which their values first occur among the records |
| CodeGen.DictBodyLastWins | app/main.py:71 | a record whose key value no later record repeats is found under that value, without its key column. With a repeat, the later record is the one kept |
| CodeGen.RecordOfJson | app/main.py:63 | the JSON object built from a record reads back as that record |
| CodeGen.RecordsOfJson | app/main.py:63 | the JSON array built from the records reads back as those records, in order |
| CodeGen.BodyOfJson | app/main.py:72 | the JSON object built from a dict-mode body reads back as that body |
| CodeGen.Literal | app/main.py:76 | the serialised list of records is a JSON array: it starts with `[` and ends with `]` |
| CodeGen.LiteralReadsBack | app/main.py:76 | the serialised list of records decodes back to exactly those records, all values strings |
| CodeGen.GenerateCode | app/main.py:50-83 | `listdict` gives `data = ` and a JSON array, ending with its `]`. `dict` with headers gives `data = ` and a JSON object, ending with its `}`. Every other mode starts with the pandas header `import pandas as pd\nrows = ` and ends with `\ndf = pd.DataFrame(rows)\nprint(df)\n` |
| CodeGen.ListDictCode | app/main.py:59-64 | `listdict` gives `data = ` followed by a literal that decodes back to the records. The code ends with the literal's closing `]`, so there is no trailing newline |
| CodeGen.PandasCode | app/main.py:74-83 | every mode other than `listdict` and `dict` gives `import pandas as pd\nrows = `, the very literal `listdict` assigns, and `\ndf = pd.DataFrame(rows)\nprint(df)\n` |
| CodeGen.DictCodeNoHeaders | app/main.py:67-68 | dict mode without headers gives exactly `data = {}  # No data`, whatever the rows |
| CodeGen.DictCode | app/main.py:69-72 | dict mode with headers gives `data = ` followed by a literal that decodes back to the map from each record's first-column value to that record without the first column. The code ends with the literal's closing `}` |
| CodeGen.TwoColumnRecord | app/main.py:47 | with two distinct headers a two-cell row makes the record of both pairs, whose key value is the first cell and whose rest is the second pair |
| CodeGen.TwoRowBody | app/main.py:69-71 | two rows with distinct first cells make a dict-mode body of two entries, in row order, each mapping its first cell to the record of its second column |
| CodeGen.TwoRowJson | app/main.py:72 | that body becomes a JSON object of two members whose values are one-member objects |
| CodeGen.TwoRowCode | app/main.py:69-72 | dict mode on those two rows gives `data = ` and the serialisation of that object |
| CodeGen.DictExample | app/main.py:69-72 | dict mode on headers `k, v` and rows `x, 1` and `y, 2` gives exactly `data = {`, then `"x": {` two spaces in, `"v": "1"` four spaces in, `},`, the same for `y`, and a closing `}` |
| CodeGen.DictCodeRow | app/main.py:71 | in dict mode, a row whose first-column value no later row repeats is found under that value, as its record without the first column |
| CodeGen.TwoEntryMembers | app/main.py:63 | the JSON object built from two pairs has exactly those two string members, in order |
| CodeGen.TwoRecordsJson | app/main.py:46-47 | with two distinct headers, two rows of two cells become a JSON array of two objects, in row order, each mapping the headers to that row's cells |
| CodeGen.ExampleLiteral | app/main.py:76 | on headers `k, v` and rows `x, 1` and `y, 2`, the literal is exactly `[`, `  {`, `"k": "x",` and `"v": "1"` four spaces in, `  },`, the same for `y, 2` ending in `  }`, and `]`: ten lines |
| CodeGen.ListDictExample | app/main.py:59-64 | listdict mode on that table gives exactly `data = ` followed by that ten-line literal, with no trailing newline |
| CodeGen.PandasExample | app/main.py:74-83 | pandas mode on that table gives exactly `import pandas as pd`, `rows = ` followed by that literal, `df = pd.DataFrame(rows)` and `print(df)`, each line ending with a line break |
| Json.Dumps | app/main.py:63 | `json.dumps` writes a string between quotes, a list between brackets and a dict between braces. Json.ItemsJoined and Json.MembersJoined state its `indent=2` layout for lists and dicts of any length, and the layout lemmas below give exact texts |
| Json.Quote | app/main.py:63 | a string is written between two double quotes, and the result is at least two characters longer than the string. Json.QuoteUnescaped gives its exact text for strings without escapes, and Json.LoadsDumps shows that the decoder reads it back |
| Json.EscapeString | app/main.py:63 | escaping a string never shortens it. Escaping is character by character (Json.EscapeChar), and Json.QuoteUnescaped shows that it leaves a string with no quote, backslash or control character unchanged |
| Json.Dump | app/main.py:63 | no contract of its own. Json.LoadsDumps (it decodes back), Json.DumpsInjective, Json.ItemsJoined, Json.MembersJoined and the layout lemmas characterise it |
| Json.DumpItems | app/main.py:63 | no contract of its own. Json.DumpItemsJoined shows it is the elements' texts, each after a line break at the inner level, joined by commas |
| Json.DumpMembers | app/main.py:63 | no contract of its own. Json.DumpMembersJoined shows it is the members' texts, each after a line break at the inner level, joined by commas |
| Json.ItemsJoined | app/main.py:63 | a non-empty list of any length is written as `[`, then its elements' texts one level deeper, joined by `,` and a line break at that level, then a line break at the list's own level and `]`; the same as `"[" + newline + ("," + newline).join(...)` in CPython's encoder |
| Json.DumpItemsJoined | app/main.py:63 | the element lines of a non-empty list are a line break followed by the elements' texts joined by a comma and that line break |
| Json.MembersJoined | app/main.py:63 | a non-empty dict of any length is written as `{`, then its members' texts one level deeper, joined by `,` and a line break at that level, then a line break at the dict's own level and `}` |
| Json.DumpMembersJoined | app/main.py:63 | the member lines of a non-empty dict are a line break followed by the members' texts joined by a comma and that line break |
| Json.TwoItemsText | app/main.py:63 | a list of two elements puts each on its own line one level in, with a comma directly after the first, and the closing bracket at the list's own level |
| Json.RecordText | app/main.py:63 | a record of two string members, one level in, is `{`, the first member four spaces in followed by a comma, the second four spaces in, and `}` two spaces in |
| Json.TwoItemsLines | app/main.py:63 | a top-level list of two values that each take their own lines between braces is `[`, the first value two spaces in followed by `},`, the second, and `]` on its own line |
| Json.TwoRecordsText | app/main.py:63 | a top-level list of two records of two string members each is written line by line: `[`, `  {`, two members four spaces in with a comma after the first, `  },`, the same for the second record ending in `  }`, then `]` |
| Json.EscapeChar | app/main.py:63 | with `ensure_ascii=False` a character other than the quote, the backslash and the control characters is written as itself, non-ASCII ones included. Every other character is written as an escape starting with a backslash, and no character is written as a bare quote |
| Json.QuoteUnescaped | app/main.py:63 | a string with no quote, backslash or control character is written unchanged between two quotes |
| Json.Newlines | app/main.py:63 | each level of `indent=2` adds two spaces after the line break |
| Json.KeyedText | app/main.py:63 | a member is written as its quoted key, `": "`, then its value |
| Json.StringMemberText | app/main.py:63 | a member whose key and value need no escapes is written as `"k": "v"` |
| Json.OneMemberText | app/main.py:63 | a dict of one member puts the member on its own line one level in, and the closing brace on a new line at the dict's own level |
| Json.TwoMembersText | app/main.py:63 | a dict of two members puts each on its own line one level in, with a comma directly after the first, and the closing brace at the dict's own level |
| Json.OneItemText | app/main.py:63 | a list of one element puts the element on its own line one level in, and the closing bracket at the list's own level |
| Json.NestedMemberText | app/main.py:63 | a member whose value is a dict of one string member opens the brace on the key's line, writes the inner member one level deeper and closes the brace at the key's level |
| Json.OneNestedText | app/main.py:63 | a top-level list of one dict of one string member is written line by line: `[`, `  {`, the member four spaces in, `  }`, `]` |
| Json.TwoNestedText | app/main.py:63 | a top-level dict of two members whose values are one-member dicts is written line by line, each inner member four spaces in and `  },` between the two |
| Json.DumpsExample | app/main.py:63 | the exact text of `[{"k": "é"}]`, five lines with `é` written as itself |
| Json.DumpsNestedExample | app/main.py:63 | the exact text of `{"x": {"v": "1"}, "y": {"v": "2"}}`, eight lines, as `indent=2` lays it out |
| Json.LoadsDumps | app/main.py:63 | decoding `json.dumps(j, indent=2, ensure_ascii=False)` gives back `j` |
| Json.DumpsInjective | app/main.py:63 | different values serialise to different texts |

## Left out

- The FastAPI application is not modelled: the app object, the static mount and the template set-up (app/main.py:1-13), and the `index` and `convert` request handlers with their sample text (app/main.py:86-120). They are HTTP and templating plumbing; `convert` only chains `parse_csv` and `generate_code`.
- app/static/script.js is browser UI (a clipboard copy and a label reset on a timer) and is not part of this model.
- The `csv` module's field size limit (131072 characters) is not modelled. A longer field would raise `_csv.Error` in the program; the model reads it.
- CsvReader.ReadRecords: the reader's state machine keeps the error on an unquoted CR. There is no lemma about that error because `parse_csv` never passes it a CR (Table.Content).
- CsvReader.ReadRecords: the proved characterisations cover two families of text. One is every field quoted. The other is plain fields joined by commas, optionally after spaces. The state machine also models the remaining cases, such as stray quotes inside unquoted fields and text after a closing quote, but no lemma predicts their records.
- Text.IsSpace is a fixed list of code points: those that Python's `str.isspace` accepts (Unicode category Zs and bidirectional classes WS, B and S). A change to that list in a later Unicode version is not modelled.
- CodeGen.KeyValue takes `str()` as the identity. Every value in a record is already a string, because the reader only yields strings.
- Json covers only strings, arrays and objects, the values `generate_code` serialises. The decoder (Json.Loads) states what the serialised text means; it is not code of the program. It reads JSON strings, arrays and objects in any layout, with every escape of RFC 8259 except surrogate pairs; the lemmas apply it to what the serialiser writes.
- The default value of `has_header` (`True`, app/main.py:16) is not modelled: Table.ParseCsv always takes the flag explicitly. A call that omits it is Table.ParseCsv with `true`.
- The mode switch is modelled on plain string equality, as in Python; how the web form delivers the mode is not modelled.
