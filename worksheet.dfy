/** `buildSheetXml`: the worksheet part of the workbook, one header row and one row per
    flight entry, every cell an inline string; and a reader for that layout, which
    recovers rows, row numbers, cell references and cell texts. */
module Worksheet {
  import opened JsStrings
  import opened Options
  import opened XmlEscape
  import opened Backend

  /** `HEADERS`. */
  const Headers: seq<string> := [
    "Date", "Student", "Instructor", "Aircraft", "Type",
    "Exercise", "Takeoff", "Landing", "Total", "LandingType", "LandingCount"]

  /** `String.fromCharCode(65 + i)`: the column letter of the `i`-th cell. */
  function Column(i: nat): (c: char)
    requires i < 26
    ensures 'A' <= c <= 'Z'
  {
    (65 + i) as char
  }

  /** The `i`-th column is the `i`-th capital letter: the eleven columns of the sheet run
      from `A` to `K`. */
  lemma ColumnCode(i: nat)
    requires i < 26
    ensures Column(i) as int == 'A' as int + i
    ensures i < |Headers| ==> 'A' <= Column(i) <= 'K'
  {
  }

  /** `parts.join('')`. */
  function ConcatAll(parts: seq<string>): string
    decreases |parts|
  {
    if parts == [] then "" else parts[0] + ConcatAll(parts[1..])
  }

  /** One inline-string cell. */
  function CellXml(col: char, row: nat, v: string): string {
    "<c r=\"" + [col] + IntToString(row) + "\" t=\"inlineStr\">" + "<is>" + "<t>" + EscapeXml(v)
    + "</t>" + "</is>" + "</c>"
  }

  /** The cells of `values` from the `k`-th on, in columns `Column(k)`, `Column(k + 1)`, ... */
  function CellsXml(values: seq<string>, row: nat, k: nat): string
    requires k <= |values| <= 26
    decreases |values| - k
  {
    if k == |values| then "" else CellXml(Column(k), row, values[k]) + CellsXml(values, row, k + 1)
  }

  function RowXml(row: nat, values: seq<string>): string
    requires |values| <= 26
  {
    "<row r=\"" + IntToString(row) + "\">" + CellsXml(values, row, 0) + "</row>"
  }

  /** The eleven displayed values of an entry, in header order. */
  function EntryValues(e: FlightEntry): (values: seq<string>)
    ensures |values| == |Headers|
  {
    [e.date, e.student, e.instructor, e.aircraft,
     if e.flightType == Solo then "Solo" else "Dual",
     e.exercise, e.takeoffTime, e.landingTime, e.totalFlightTime,
     if e.landingType == Day then "Day" else "Night",
     IntToString(e.landingCount)]
  }

  /** A row to be written: its number and its cell values. */
  datatype RowSpec = RowSpec(number: nat, values: seq<string>)

  predicate Fits(specs: seq<RowSpec>) {
    forall i | 0 <= i < |specs| :: |specs[i].values| <= 26
  }

  /** The rows of the sheet: the header row numbered 1, then entry `i` numbered `i + 2`. */
  function Layout(entries: seq<FlightEntry>): (specs: seq<RowSpec>)
    ensures |specs| == |entries| + 1 && Fits(specs)
  {
    [RowSpec(1, Headers)]
    + seq(|entries|, i requires 0 <= i < |entries| => RowSpec(i + 2, EntryValues(entries[i])))
  }

  function RowXmls(specs: seq<RowSpec>): (rows: seq<string>)
    requires Fits(specs)
    ensures |rows| == |specs|
    decreases |specs|
  {
    if specs == [] then []
    else [RowXml(specs[0].number, specs[0].values)] + RowXmls(specs[1..])
  }

  /** The XML declaration and the opening `worksheet` tag (the first two lines of the source's
      template), each without its leading `<`. They are assembled with `+` from short pieces
      on purpose: the verifier checks that a short literal holds no `<` directly, and one
      lemma per piece gives that fact for the whole tag. */
  const DeclarationTag := "?xml version=\"1.0\"" + " encoding=\"UTF-8\"" + " standalone=\"yes\"?>\n"
  const WorksheetTag := "worksheet xmlns=\"http://" + "schemas.openxmlformats.org"
                        + "/spreadsheetml/2006/main\">\n" + "  "
  const Prologue := "<" + DeclarationTag + "<" + WorksheetTag + "<sheetData>"
  const Epilogue := "</sheetData>" + "\n" + "</worksheet>"

  /** The text `buildSheetXml(entries)` returns. */
  function SheetXml(entries: seq<FlightEntry>): string {
    Prologue + ConcatAll(RowXmls(Layout(entries))) + Epilogue
  }

  /** `buildSheetXml`: the header row is pushed first, then one row per entry. */
  method BuildSheetXml(entries: seq<FlightEntry>) returns (xml: string)
    ensures xml == SheetXml(entries)
  {
    var rows: seq<string> := [];
    var headerCells := CellsXml(Headers, 1, 0);
    rows := rows + ["<row r=\"1\">" + headerCells + "</row>"];
    HeaderRow(entries);
    var i := 0;
    while i < |entries|
      invariant 0 <= i <= |entries|
      invariant rows == RowXmls(Layout(entries[..i]))
    {
      var r := i + 2;
      var values := EntryValues(entries[i]);
      var cells := CellsXml(values, r, 0);
      LayoutPush(entries, i);
      RowXmlsPush(Layout(entries[..i]), RowSpec(r, values));
      rows := rows + ["<row r=\"" + IntToString(r) + "\">" + cells + "</row>"];
      i := i + 1;
    }
    assert entries[..|entries|] == entries;
    xml := Prologue + ConcatAll(rows) + Epilogue;
  }

  lemma LayoutPush(entries: seq<FlightEntry>, i: nat)
    requires i < |entries|
    ensures Layout(entries[..i + 1]) == Layout(entries[..i]) + [RowSpec(i + 2, EntryValues(entries[i]))]
  {
    var a, b := Layout(entries[..i + 1]), Layout(entries[..i]) + [RowSpec(i + 2, EntryValues(entries[i]))];
    assert |a| == |b|;
    forall k | 0 <= k < |a|
      ensures a[k] == b[k]
    {
      if k > 0 && k <= i {
        assert entries[..i + 1][k - 1] == entries[..i][k - 1];
      }
    }
  }

  lemma {:induction false} RowXmlsPush(specs: seq<RowSpec>, s: RowSpec)
    requires Fits(specs) && |s.values| <= 26
    ensures Fits(specs + [s])
    ensures RowXmls(specs + [s]) == RowXmls(specs) + [RowXml(s.number, s.values)]
    decreases |specs|
  {
    if specs == [] {
      assert [s][1..] == [];
    } else {
      assert (specs + [s])[1..] == specs[1..] + [s];
      RowXmlsPush(specs[1..], s);
    }
  }

  lemma HeaderRow(entries: seq<FlightEntry>)
    ensures RowXmls(Layout(entries[..0])) == ["<row r=\"1\">" + CellsXml(Headers, 1, 0) + "</row>"]
  {
    LayoutEmpty(entries[..0]);
    FirstRow(Headers);
  }

  lemma LayoutEmpty(entries: seq<FlightEntry>)
    requires entries == []
    ensures Layout(entries) == [RowSpec(1, Headers)]
  {
  }

  lemma FirstRow(values: seq<string>)
    requires |values| <= 26
    ensures RowXmls([RowSpec(1, values)]) == ["<row r=\"1\">" + CellsXml(values, 1, 0) + "</row>"]
  {
    assert [RowSpec(1, values)][1..] == [];
    RowOneTag();
  }

  lemma RowOneTag()
    ensures "<row r=\"" + IntToString(1) + "\">" == "<row r=\"1\">"
  {
    assert IntToString(1) == "1";
  }

  // Reading a worksheet back.

  datatype Cell = Cell(ref: string, text: string)
  datatype Row = Row(number: nat, cells: seq<Cell>)

  /** The cells a row of `values` numbered `row` should read back as: column letter and
      row number as the reference, the value itself as the text. */
  function CellsOf(values: seq<string>, row: nat): (cells: seq<Cell>)
    requires |values| <= 26
    ensures |cells| == |values|
  {
    seq(|values|, k requires 0 <= k < |values| => Cell([Column(k)] + IntToString(row), values[k]))
  }

  function RowsOf(specs: seq<RowSpec>): (rows: seq<Row>)
    requires Fits(specs)
    ensures |rows| == |specs|
  {
    seq(|specs|, i requires 0 <= i < |specs| =>
      Row(specs[i].number, CellsOf(specs[i].values, specs[i].number)))
  }

  /** The pieces of a text that starts with `<`, split at each `<`: one per tag. */
  function Tokens(s: string): seq<string> {
    if s == [] then [] else Split(s[1..], '<')
  }

  /** The middle of `t` when it opens with `open` and closes with `close`. */
  function Between(t: string, open: string, close: string): Option<string> {
    if |open| + |close| <= |t| && t[..|open|] == open && t[|t| - |close|..] == close
    then Some(t[|open|..|t| - |close|])
    else None
  }

  /** Cells up to the `/row>` token, each six tokens: open tag with the reference,
      `is>`, `t>` with the escaped text, and the three closing tags. */
  function ReadCells(toks: seq<string>): (r: Option<(seq<Cell>, seq<string>)>)
    ensures r.Some? ==> |r.value.1| >= 1 && r.value.1[0] == "/row>" && |r.value.1| <= |toks|
    decreases |toks|
  {
    if |toks| >= 1 && toks[0] == "/row>" then Some(([], toks))
    else if && |toks| >= 6 && Between(toks[0], "c r=\"", "\" t=\"inlineStr\">").Some?
            && toks[1] == "is>" && IsPrefix("t>", toks[2]) && toks[3] == "/t>"
            && toks[4] == "/is>" && toks[5] == "/c>"
    then
      var cell := Cell(Between(toks[0], "c r=\"", "\" t=\"inlineStr\">").value, Unescape(toks[2][2..]));
      var more :- ReadCells(toks[6..]);
      Some(([cell] + more.0, more.1))
    else None
  }

  function ReadRow(toks: seq<string>): (r: Option<(Row, seq<string>)>)
    ensures r.Some? ==> |r.value.1| < |toks|
  {
    if |toks| >= 1 && Between(toks[0], "row r=\"", "\">").Some?
       && Canonical(Between(toks[0], "row r=\"", "\">").value)
    then
      var cells :- ReadCells(toks[1..]);
      Some((Row(DecimalValue(Between(toks[0], "row r=\"", "\">").value), cells.0), cells.1[1..]))
    else None
  }

  function ReadRows(toks: seq<string>): Option<seq<Row>>
    decreases |toks|
  {
    if toks == [] then Some([])
    else
      var first :- ReadRow(toks);
      var rest :- ReadRows(first.1);
      Some([first.0] + rest)
  }

  /** Reads a worksheet: the prologue ends with the `sheetData>` token, the text ends with
      the closing `sheetData` and `worksheet` tokens, and rows fill the space between. */
  function ReadSheet(xml: string): Option<seq<Row>> {
    var toks := Tokens(xml);
    if |xml| >= 1 && xml[0] == '<' && |toks| >= 5 && toks[2] == "sheetData>"
       && toks[|toks| - 2] == "/sheetData>\n" && toks[|toks| - 1] == "/worksheet>"
    then ReadRows(toks[3..|toks| - 2])
    else None
  }

  predicate OpensTag(s: string) {
    s == [] || s[0] == '<'
  }

  lemma TokensConcat(a: string, b: string)
    requires OpensTag(a) && OpensTag(b)
    ensures OpensTag(a + b)
    ensures Tokens(a + b) == Tokens(a) + Tokens(b)
  {
    if a == [] {
      assert a + b == b;
    } else if b == [] {
      assert a + b == a;
    } else {
      assert (a + b)[1..] == a[1..] + b;
      SplitConcat(a[1..], b, '<');
    }
  }

  /** A single tag: no `<` after the first character. */
  lemma SingleToken(s: string)
    requires |s| >= 1 && s[0] == '<' && '<' !in s[1..]
    ensures Tokens(s) == [s[1..]]
  {
    NoSeparator(s[1..], '<');
  }

  function CellOpen(col: char, row: nat): string {
    "c r=\"" + [col] + IntToString(row) + "\" t=\"inlineStr\">"
  }

  /** The six tokens of one cell. */
  function CellTokens(col: char, row: nat, v: string): seq<string> {
    [CellOpen(col, row), "is>", "t>" + EscapeXml(v), "/t>", "/is>", "/c>"]
  }

  lemma DecimalHasNoTag(row: nat)
    ensures '<' !in IntToString(row)
  {
    var d := IntToString(row);
    assert forall i | 0 <= i < |d| :: IsDigit(d[i]);
  }

  lemma CellOpenHasNoTag(col: char, row: nat)
    requires 'A' <= col <= 'Z'
    ensures '<' !in CellOpen(col, row)
  {
    DecimalHasNoTag(row);
    var a, d, b := "c r=\"" + [col], IntToString(row), "\" t=\"inlineStr\">";
    assert '<' !in a && '<' !in b;
    assert CellOpen(col, row) == a + d + b;
  }

  lemma TextHasNoTag(v: string)
    ensures '<' !in EscapeXml(v)
  {
    EscapeXmlRoundTrip(v);
    var e := EscapeXml(v);
    assert forall i | 0 <= i < |e| :: e[i] != '<';
  }

  /** Each piece behind a `<`: the text whose tokens are exactly `xs`. */
  function Tags(xs: seq<string>): (s: string)
    ensures OpensTag(s)
    decreases |xs|
  {
    if xs == [] then "" else "<" + xs[0] + Tags(xs[1..])
  }

  predicate NoTags(xs: seq<string>) {
    forall i | 0 <= i < |xs| :: '<' !in xs[i]
  }

  lemma {:induction false} TagsAppend(xs: seq<string>, ys: seq<string>)
    ensures Tags(xs + ys) == Tags(xs) + Tags(ys)
    decreases |xs|
  {
    if xs == [] {
      assert xs + ys == ys;
    } else {
      assert (xs + ys)[1..] == xs[1..] + ys;
      TagsAppend(xs[1..], ys);
    }
  }

  lemma {:induction false} TagsTokens(xs: seq<string>)
    requires NoTags(xs)
    ensures Tokens(Tags(xs)) == xs
    decreases |xs|
  {
    if xs != [] {
      var head := "<" + xs[0];
      assert head[1..] == xs[0];
      SingleToken(head);
      TagsTokens(xs[1..]);
      TokensConcat(head, Tags(xs[1..]));
    }
  }

  lemma Tags6(a: string, b: string, c: string, d: string, e: string, f: string)
    ensures Tags([a, b, c, d, e, f]) == "<" + a + "<" + b + "<" + c + "<" + d + "<" + e + "<" + f
  {
    var t := [a, b, c, d, e, f];
    assert Tags(t[5..]) == "<" + f by { assert t[5..][1..] == []; }
    assert Tags(t[4..]) == "<" + e + Tags(t[5..]) by { assert t[4..][1..] == t[5..]; }
    assert Tags(t[3..]) == "<" + d + Tags(t[4..]) by { assert t[3..][1..] == t[4..]; }
    assert Tags(t[2..]) == "<" + c + Tags(t[3..]) by { assert t[2..][1..] == t[3..]; }
    assert Tags(t[1..]) == "<" + b + Tags(t[2..]) by { assert t[1..][1..] == t[2..]; }
    assert t[0..] == t;
  }

  lemma CellXmlTags(col: char, row: nat, v: string)
    ensures CellXml(col, row, v) == Tags(CellTokens(col, row, v))
  {
    Tags6(CellOpen(col, row), "is>", "t>" + EscapeXml(v), "/t>", "/is>", "/c>");
    CellShape(col, IntToString(row), EscapeXml(v));
  }

  lemma CellShape(col: char, d: string, x: string)
    ensures "<c r=\"" + [col] + d + "\" t=\"inlineStr\">" + "<is>" + "<t>" + x + "</t>" + "</is>" + "</c>"
         == "<" + ("c r=\"" + [col] + d + "\" t=\"inlineStr\">") + "<" + "is>" + "<" + ("t>" + x)
            + "<" + "/t>" + "<" + "/is>" + "<" + "/c>"
  {
  }

  lemma CellTokensNoTags(col: char, row: nat, v: string)
    requires 'A' <= col <= 'Z'
    ensures NoTags(CellTokens(col, row, v))
  {
    CellOpenHasNoTag(col, row);
    TextHasNoTag(v);
  }

  /** The tokens of the cells of `values` from the `k`-th on. */
  function CellsTokens(values: seq<string>, row: nat, k: nat): seq<string>
    requires k <= |values| <= 26
    decreases |values| - k
  {
    if k == |values| then []
    else CellTokens(Column(k), row, values[k]) + CellsTokens(values, row, k + 1)
  }

  lemma NoTagsAppend(xs: seq<string>, ys: seq<string>)
    requires NoTags(xs) && NoTags(ys)
    ensures NoTags(xs + ys)
  {
    forall i | 0 <= i < |xs + ys|
      ensures '<' !in (xs + ys)[i]
    {
      if i >= |xs| {
        assert (xs + ys)[i] == ys[i - |xs|];
      }
    }
  }

  lemma {:induction false} CellsXmlTags(values: seq<string>, row: nat, k: nat)
    requires k <= |values| <= 26
    ensures CellsXml(values, row, k) == Tags(CellsTokens(values, row, k))
    ensures NoTags(CellsTokens(values, row, k))
    decreases |values| - k
  {
    if k < |values| {
      var c := CellTokens(Column(k), row, values[k]);
      CellXmlTags(Column(k), row, values[k]);
      CellTokensNoTags(Column(k), row, values[k]);
      CellsXmlTags(values, row, k + 1);
      TagsAppend(c, CellsTokens(values, row, k + 1));
      NoTagsAppend(c, CellsTokens(values, row, k + 1));
    }
  }

  lemma BetweenOf(open: string, m: string, close: string)
    ensures Between(open + m + close, open, close).Some?
    ensures Between(open + m + close, open, close).value == m
  {
    var t := open + m + close;
    assert t[..|open|] == open;
    assert t[|t| - |close|..] == close;
    assert t[|open|..|t| - |close|] == m;
  }

  /** What `ReadCells` sees at the head of one cell's tokens. */
  lemma CellHead(col: char, row: nat, v: string, rest: seq<string>, toks: seq<string>)
    requires toks == CellTokens(col, row, v) + rest
    ensures |toks| >= 6 && toks[0] != "/row>" && toks[6..] == rest
    ensures Between(toks[0], "c r=\"", "\" t=\"inlineStr\">").Some?
    ensures Between(toks[0], "c r=\"", "\" t=\"inlineStr\">").value == [col] + IntToString(row)
    ensures toks[1] == "is>" && IsPrefix("t>", toks[2]) && Unescape(toks[2][2..]) == v
    ensures toks[3] == "/t>" && toks[4] == "/is>" && toks[5] == "/c>"
  {
    BetweenOf("c r=\"", [col] + IntToString(row), "\" t=\"inlineStr\">");
    assert CellOpen(col, row) == "c r=\"" + ([col] + IntToString(row)) + "\" t=\"inlineStr\">";
    assert toks[0] == CellOpen(col, row);
    assert toks[0][0] == 'c';
    var t := "t>" + EscapeXml(v);
    assert toks[2] == t && t[..2] == "t>" && t[2..] == EscapeXml(v);
    EscapeXmlRoundTrip(v);
  }

  /** One cell read by `ReadCells`, ahead of the cells after it. */
  lemma ReadCellsStep(toks: seq<string>, cell: Cell, more: (seq<Cell>, seq<string>))
    requires |toks| >= 6 && toks[0] != "/row>"
    requires Between(toks[0], "c r=\"", "\" t=\"inlineStr\">").Some?
    requires toks[1] == "is>" && IsPrefix("t>", toks[2])
    requires toks[3] == "/t>" && toks[4] == "/is>" && toks[5] == "/c>"
    requires cell == Cell(Between(toks[0], "c r=\"", "\" t=\"inlineStr\">").value, Unescape(toks[2][2..]))
    requires ReadCells(toks[6..]) == Some(more)
    ensures ReadCells(toks) == Some(([cell] + more.0, more.1))
  {
  }

  /** The tokens of one cell ahead of `rest` read back as that cell. */
  lemma CellRead(col: char, row: nat, v: string, rest: seq<string>, toks: seq<string>,
                 more: (seq<Cell>, seq<string>))
    requires toks == CellTokens(col, row, v) + rest && ReadCells(rest) == Some(more)
    ensures ReadCells(toks) == Some(([Cell([col] + IntToString(row), v)] + more.0, more.1))
  {
    CellHead(col, row, v, rest, toks);
    ReadCellsStep(toks, Cell([col] + IntToString(row), v), more);
  }

  lemma {:induction false} ReadCellsOf(values: seq<string>, row: nat, k: nat, tail: seq<string>)
    requires k <= |values| <= 26
    requires |tail| >= 1 && tail[0] == "/row>"
    ensures ReadCells(CellsTokens(values, row, k) + tail) == Some((CellsOf(values, row)[k..], tail))
    decreases |values| - k
  {
    if k == |values| {
      assert CellsTokens(values, row, k) + tail == tail;
      assert CellsOf(values, row)[k..] == [];
    } else {
      ReadCellsOf(values, row, k + 1, tail);
      ReadCellsOfStep(values, row, k, tail);
    }
  }

  /** The cells from `k` on read back once those from `k + 1` on do. */
  lemma ReadCellsOfStep(values: seq<string>, row: nat, k: nat, tail: seq<string>)
    requires k < |values| <= 26
    requires ReadCells(CellsTokens(values, row, k + 1) + tail) == Some((CellsOf(values, row)[k + 1..], tail))
    ensures ReadCells(CellsTokens(values, row, k) + tail) == Some((CellsOf(values, row)[k..], tail))
  {
    var rest := CellsTokens(values, row, k + 1) + tail;
    var toks := CellsTokens(values, row, k) + tail;
    CellsTokensStep(values, row, k, tail);
    var cells := CellsOf(values, row);
    CellRead(Column(k), row, values[k], rest, toks, (cells[k + 1..], tail));
    CellsOfStep(values, row, k);
  }

  lemma CellsTokensStep(values: seq<string>, row: nat, k: nat, tail: seq<string>)
    requires k < |values| <= 26
    ensures CellsTokens(values, row, k) + tail
            == CellTokens(Column(k), row, values[k]) + (CellsTokens(values, row, k + 1) + tail)
  {
    var c, more := CellTokens(Column(k), row, values[k]), CellsTokens(values, row, k + 1);
    assert CellsTokens(values, row, k) == c + more;
    assert (c + more) + tail == c + (more + tail);
  }

  lemma CellsOfStep(values: seq<string>, row: nat, k: nat)
    requires k < |values| <= 26
    ensures CellsOf(values, row)[k..]
            == [Cell([Column(k)] + IntToString(row), values[k])] + CellsOf(values, row)[k + 1..]
  {
    var cells := CellsOf(values, row);
    assert cells[k..] == [cells[k]] + cells[k + 1..];
  }

  function RowOpen(row: nat): string {
    "row r=\"" + IntToString(row) + "\">"
  }

  /** The tokens of one row: its open tag, its cells, its closing tag. */
  function RowTokens(spec: RowSpec): seq<string>
    requires |spec.values| <= 26
  {
    [RowOpen(spec.number)] + CellsTokens(spec.values, spec.number, 0) + ["/row>"]
  }

  function RowsTokens(specs: seq<RowSpec>): seq<string>
    requires Fits(specs)
    decreases |specs|
  {
    if specs == [] then [] else RowTokens(specs[0]) + RowsTokens(specs[1..])
  }

  lemma Tags1(x: string)
    ensures Tags([x]) == "<" + x
  {
    assert [x][1..] == [];
  }

  lemma RowShape(d: string, cells: string)
    ensures "<row r=\"" + d + "\">" + cells + "</row>" == "<" + ("row r=\"" + d + "\">") + cells + ("<" + "/row>")
  {
  }

  lemma RowXmlTags(spec: RowSpec)
    requires |spec.values| <= 26
    ensures RowXml(spec.number, spec.values) == Tags(RowTokens(spec))
    ensures NoTags(RowTokens(spec))
  {
    var o, c := [RowOpen(spec.number)], CellsTokens(spec.values, spec.number, 0);
    CellsXmlTags(spec.values, spec.number, 0);
    RowShape(IntToString(spec.number), CellsXml(spec.values, spec.number, 0));
    Tags1(RowOpen(spec.number));
    Tags1("/row>");
    TagsAppend(o, c);
    TagsAppend(o + c, ["/row>"]);
    RowTokensNoTags(spec.number, c);
  }

  lemma RowTokensNoTags(row: nat, cells: seq<string>)
    requires NoTags(cells)
    ensures NoTags([RowOpen(row)] + cells + ["/row>"])
  {
    DecimalHasNoTag(row);
    assert '<' !in RowOpen(row);
    NoTagsAppend([RowOpen(row)], cells);
    NoTagsAppend([RowOpen(row)] + cells, ["/row>"]);
  }

  lemma {:induction false} RowsXmlTags(specs: seq<RowSpec>)
    requires Fits(specs)
    ensures ConcatAll(RowXmls(specs)) == Tags(RowsTokens(specs))
    ensures NoTags(RowsTokens(specs))
    decreases |specs|
  {
    if specs != [] {
      RowXmlTags(specs[0]);
      RowsXmlTags(specs[1..]);
      assert RowXmls(specs)[1..] == RowXmls(specs[1..]);
      TagsAppend(RowTokens(specs[0]), RowsTokens(specs[1..]));
      NoTagsAppend(RowTokens(specs[0]), RowsTokens(specs[1..]));
    }
  }

  lemma RowNumberRead(row: nat)
    ensures Between(RowOpen(row), "row r=\"", "\">").Some?
    ensures Canonical(Between(RowOpen(row), "row r=\"", "\">").value)
    ensures DecimalValue(Between(RowOpen(row), "row r=\"", "\">").value) == row
  {
    BetweenOf("row r=\"", IntToString(row), "\">");
    DecimalRoundTrip(row);
  }

  lemma ReadRowOf(spec: RowSpec, rest: seq<string>)
    requires |spec.values| <= 26
    ensures ReadRow(RowTokens(spec) + rest).Some?
    ensures ReadRow(RowTokens(spec) + rest).value.0 == Row(spec.number, CellsOf(spec.values, spec.number))
    ensures ReadRow(RowTokens(spec) + rest).value.1 == rest
  {
    var toks := RowTokens(spec) + rest;
    var cells, tail := CellsTokens(spec.values, spec.number, 0), ["/row>"] + rest;
    assert toks == [RowOpen(spec.number)] + (cells + tail);
    assert toks[0] == RowOpen(spec.number) && toks[1..] == cells + tail;
    RowNumberRead(spec.number);
    ReadCellsOf(spec.values, spec.number, 0, tail);
    assert CellsOf(spec.values, spec.number)[0..] == CellsOf(spec.values, spec.number);
    assert tail[1..] == rest;
  }

  lemma {:induction false} ReadRowsOf(specs: seq<RowSpec>)
    requires Fits(specs)
    ensures ReadRows(RowsTokens(specs)).Some?
    ensures ReadRows(RowsTokens(specs)).value == RowsOf(specs)
    decreases |specs|
  {
    if specs != [] {
      var s := specs[0];
      var later := RowsTokens(specs[1..]);
      var toks := RowsTokens(specs);
      assert toks == RowTokens(s) + later;
      ReadRowOf(s, later);
      ReadRowsOf(specs[1..]);
      RowsOfStep(specs);
      ReadRowsStep(toks, ReadRow(toks).value, RowsOf(specs[1..]));
    }
  }

  lemma RowsOfStep(specs: seq<RowSpec>)
    requires specs != [] && Fits(specs)
    ensures Fits(specs[1..])
    ensures RowsOf(specs) == [Row(specs[0].number, CellsOf(specs[0].values, specs[0].number))]
                             + RowsOf(specs[1..])
  {
    assert forall i | 0 <= i < |specs| - 1 :: specs[1..][i] == specs[i + 1];
  }

  /** One row read by `ReadRows`, ahead of the rows after it. */
  lemma ReadRowsStep(toks: seq<string>, first: (Row, seq<string>), rest: seq<Row>)
    requires toks != [] && ReadRow(toks) == Some(first) && ReadRows(first.1) == Some(rest)
    ensures ReadRows(toks) == Some([first.0] + rest)
  {
  }

  const PrologueTokens := [DeclarationTag, WorksheetTag, "sheetData>"]
  const EpilogueTokens := ["/sheetData>\n", "/worksheet>"]

  // The literal pieces of the prologue hold no `<`; one small lemma per piece.
  lemma VersionNoTag() ensures '<' !in "?xml version=\"1.0\"" {}
  lemma EncodingNoTag() ensures '<' !in " encoding=\"UTF-8\"" {}
  lemma StandaloneNoTag() ensures '<' !in " standalone=\"yes\"?>\n" {}
  lemma WorksheetNameNoTag() ensures '<' !in "worksheet xmlns=\"http://" {}
  lemma SchemaHostNoTag() ensures '<' !in "schemas.openxmlformats.org" {}
  lemma SchemaPathNoTag() ensures '<' !in "/spreadsheetml/2006/main\">\n" {}
  lemma IndentNoTag() ensures '<' !in "  " {}

  lemma PrologueTags()
    ensures Prologue == Tags(PrologueTokens) && NoTags(PrologueTokens)
  {
    var t := PrologueTokens;
    VersionNoTag();
    EncodingNoTag();
    StandaloneNoTag();
    WorksheetNameNoTag();
    SchemaHostNoTag();
    SchemaPathNoTag();
    IndentNoTag();
    assert '<' !in DeclarationTag && '<' !in WorksheetTag;
    assert Tags(t[2..]) == "<sheetData>" by { assert t[2..][1..] == []; }
    assert Tags(t[1..]) == "<" + WorksheetTag + Tags(t[2..]) by { assert t[1..][1..] == t[2..]; }
  }

  lemma EpilogueTags()
    ensures Epilogue == Tags(EpilogueTokens) && NoTags(EpilogueTokens)
  {
    var t := EpilogueTokens;
    assert t[1..][1..] == [];
  }

  lemma SheetTokens(entries: seq<FlightEntry>)
    ensures SheetXml(entries) == Tags(PrologueTokens + RowsTokens(Layout(entries)) + EpilogueTokens)
    ensures NoTags(PrologueTokens + RowsTokens(Layout(entries)) + EpilogueTokens)
  {
    var rows := RowsTokens(Layout(entries));
    PrologueTags();
    EpilogueTags();
    RowsXmlTags(Layout(entries));
    TagsAppend(PrologueTokens, rows);
    TagsAppend(PrologueTokens + rows, EpilogueTokens);
    NoTagsAppend(PrologueTokens, rows);
    NoTagsAppend(PrologueTokens + rows, EpilogueTokens);
  }

  lemma ReadFramed(xml: string, rows: seq<string>)
    requires |xml| >= 1 && xml[0] == '<'
    requires Tokens(xml) == PrologueTokens + rows + EpilogueTokens
    ensures ReadSheet(xml) == ReadRows(rows)
  {
    var toks := Tokens(xml);
    assert toks[2] == "sheetData>";
    assert toks[|toks| - 2] == "/sheetData>\n" && toks[|toks| - 1] == "/worksheet>";
    assert toks[3..|toks| - 2] == rows;
  }

  lemma SheetOpensTag(entries: seq<FlightEntry>)
    ensures |SheetXml(entries)| >= 1 && SheetXml(entries)[0] == '<'
  {
    assert SheetXml(entries)[0] == Prologue[0];
  }

  /** Reading back what `buildSheetXml` writes gives, row by row, each row's number and,
      cell by cell, the column-and-row reference and the unescaped value. */
  lemma ReadSheetOfBuilt(entries: seq<FlightEntry>)
    ensures ReadSheet(SheetXml(entries)).Some?
    ensures ReadSheet(SheetXml(entries)).value == RowsOf(Layout(entries))
  {
    var rows := RowsTokens(Layout(entries));
    SheetTokens(entries);
    TagsTokens(PrologueTokens + rows + EpilogueTokens);
    SheetOpensTag(entries);
    ReadFramed(SheetXml(entries), rows);
    ReadRowsOf(Layout(entries));
  }

  /** The rows `buildSheetXml` lays out, as they read back: the header row numbered 1
      holding `HEADERS`, then entry `i` as row `i + 2` holding the entry's eleven values. */
  lemma LayoutRows(entries: seq<FlightEntry>)
    ensures var rows := RowsOf(Layout(entries));
      && |rows| == |entries| + 1
      && rows[0] == Row(1, CellsOf(Headers, 1))
      && forall i | 0 <= i < |entries| ::
           rows[i + 1] == Row(i + 2, CellsOf(EntryValues(entries[i]), i + 2))
  {
    var specs := Layout(entries);
    assert specs[0] == RowSpec(1, Headers);
    forall i | 0 <= i < |entries|
      ensures specs[i + 1] == RowSpec(i + 2, EntryValues(entries[i]))
    {
    }
  }

  /** The sheet read back holds the header row and one row per entry, in order. */
  lemma SheetContents(entries: seq<FlightEntry>)
    ensures ReadSheet(SheetXml(entries)).Some?
    ensures var rows := ReadSheet(SheetXml(entries)).value;
      && |rows| == |entries| + 1
      && rows[0] == Row(1, CellsOf(Headers, 1))
      && forall i | 0 <= i < |entries| ::
           rows[i + 1] == Row(i + 2, CellsOf(EntryValues(entries[i]), i + 2))
  {
    ReadSheetOfBuilt(entries);
    LayoutRows(entries);
  }
}
