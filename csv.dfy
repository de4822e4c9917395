/** CSV export and import of transactions. Numbers are turned into text and
    back by two functions given as parameters: `show` for `String(amount)` and
    `parse` for `Number(text)` followed by the `isFinite` test (`None` for NaN
    and the infinities). */
module Csv {
  import opened Types
  import opened Strings

  const Header: seq<string> := ["id", "amount", "type", "category", "date", "notes"]

  // ---- export ----

  /** The characters that make `safe` quote a value. */
  predicate NeedsQuotes(v: string) {
    HasChar(v, ',') || HasChar(v, '"') || HasChar(v, '\n')
  }

  /** `v.split('"').join('""')`: every quote doubled. */
  function DoubleQuotes(v: string): (r: string)
    ensures !HasChar(v, '"') ==> r == v
  {
    if v == [] then []
    else (if v[0] == '"' then "\"\"" else [v[0]]) + DoubleQuotes(v[1..])
  }

  /** `safe(v)`: quoted, with quotes doubled, when the value holds a comma, a
      quote or a line feed; unchanged otherwise. */
  function Safe(v: string): (r: string)
    ensures !NeedsQuotes(v) ==> r == v
    ensures NeedsQuotes(v) ==> |r| >= 2 && r[0] == '"' && r[|r| - 1] == '"'
  {
    if NeedsQuotes(v) then "\"" + DoubleQuotes(v) + "\"" else v
  }

  /** The six values of one exported row; the amount is not passed through `safe`. */
  function RowValues(t: Transaction, show: real -> string): seq<string> {
    [t.id, show(t.amount), t.txType, t.category, t.date, t.notes.GetOr("")]
  }

  function RowLine(t: Transaction, show: real -> string): string {
    var v := RowValues(t, show);
    Join(',', [Safe(v[0]), v[1], Safe(v[2]), Safe(v[3]), Safe(v[4]), Safe(v[5])])
  }

  /** The header line followed by one line per row, in order. */
  function CsvLines(rows: seq<Transaction>, show: real -> string): (ls: seq<string>)
    ensures |ls| == |rows| + 1 && ls[0] == Join(',', Header)
    ensures forall i :: 0 <= i < |rows| ==> ls[i + 1] == RowLine(rows[i], show)
  {
    if rows == [] then [Join(',', Header)]
    else CsvLines(rows[..|rows| - 1], show) + [RowLine(rows[|rows| - 1], show)]
  }

  lemma CsvLinesSnoc(rows: seq<Transaction>, k: int, show: real -> string)
    requires 0 <= k < |rows|
    ensures CsvLines(rows[..k + 1], show) == CsvLines(rows[..k], show) + [RowLine(rows[k], show)]
  {
    assert rows[..k + 1][..k] == rows[..k];
  }

  /** The text of the file `exportToCSV` offers for download. */
  function CsvText(rows: seq<Transaction>, show: real -> string): string {
    Join('\n', CsvLines(rows, show))
  }

  /** `exportToCSV(filename, rows)` up to the download: the text it writes. */
  method ExportText(rows: seq<Transaction>, show: real -> string) returns (text: string)
    ensures text == CsvText(rows, show)
  {
    var lines := [Join(',', Header)];
    var k := 0;
    while k < |rows|
      invariant 0 <= k <= |rows|
      invariant lines == CsvLines(rows[..k], show)
    {
      CsvLinesSnoc(rows, k, show);
      lines := lines + [RowLine(rows[k], show)];
      k := k + 1;
    }
    assert rows[..k] == rows;
    text := Join('\n', lines);
  }

  // ---- splitCSV ----

  /** The character loop of `splitCSV`, from some point of the line on: `inQ`
      says whether a quoted section is open, `cur` is the field being read and
      `acc` the fields already ended. A doubled quote inside quotes is one quote. */
  function Scan(s: string, inQ: bool, cur: string, acc: seq<string>): (r: seq<string>)
    ensures |r| >= |acc| + 1
    decreases |s|
  {
    if s == [] then acc + [cur]
    else if inQ then
      if s[0] == '"' then
        if |s| > 1 && s[1] == '"' then Scan(s[2..], true, cur + "\"", acc)
        else Scan(s[1..], false, cur, acc)
      else Scan(s[1..], true, cur + [s[0]], acc)
    else if s[0] == ',' then Scan(s[1..], false, "", acc + [cur])
    else if s[0] == '"' then Scan(s[1..], true, cur, acc)
    else Scan(s[1..], false, cur + [s[0]], acc)
  }

  function TrimAll(xs: seq<string>): (r: seq<string>)
    ensures |r| == |xs| && forall i :: 0 <= i < |r| ==> r[i] == Trim(xs[i])
  {
    seq(|xs|, i requires 0 <= i < |xs| => Trim(xs[i]))
  }

  /** The fields `splitCSV(line)` returns. */
  function SplitFields(line: string): (r: seq<string>)
    ensures |r| >= 1
  {
    TrimAll(Scan(line, false, "", []))
  }

  /** `splitCSV(line)`. */
  method SplitCSV(line: string) returns (r: seq<string>)
    ensures r == SplitFields(line)
  {
    var res: seq<string> := [];
    var cur := "";
    var inQ := false;
    var i := 0;
    while i < |line|
      invariant 0 <= i <= |line|
      invariant Scan(line[i..], inQ, cur, res) == Scan(line, false, "", [])
    {
      var ch := line[i];
      assert line[i..][1..] == line[i + 1..];
      if inQ {
        if ch == '"' {
          if i + 1 < |line| && line[i + 1] == '"' {
            assert line[i..][2..] == line[i + 2..];
            cur := cur + "\"";
            i := i + 1;
          } else {
            inQ := false;
          }
        } else {
          cur := cur + [ch];
        }
      } else {
        if ch == ',' {
          res := res + [cur];
          cur := "";
        } else if ch == '"' {
          inQ := true;
        } else {
          cur := cur + [ch];
        }
      }
      i := i + 1;
    }
    res := res + [cur];
    r := TrimAll(res);
  }

  /** The commas of `s` that are outside quotes, given whether a quoted
      section is open at its start. */
  function CommasOutside(s: string, inQ: bool): nat
    decreases |s|
  {
    if s == [] then 0
    else if s[0] == '"' then
      if inQ && |s| > 1 && s[1] == '"' then CommasOutside(s[2..], true)
      else CommasOutside(s[1..], !inQ)
    else (if s[0] == ',' && !inQ then 1 else 0) + CommasOutside(s[1..], inQ)
  }

  /** `splitCSV` ends one field at each comma outside quotes, and one at the
      end of the line. */
  lemma {:induction false} ScanFieldCount(s: string, inQ: bool, cur: string, acc: seq<string>)
    ensures |Scan(s, inQ, cur, acc)| == |acc| + 1 + CommasOutside(s, inQ)
    decreases |s|
  {
    if s != [] {
      if inQ {
        if s[0] == '"' {
          if |s| > 1 && s[1] == '"' {
            ScanFieldCount(s[2..], true, cur + "\"", acc);
          } else {
            ScanFieldCount(s[1..], false, cur, acc);
          }
        } else {
          ScanFieldCount(s[1..], true, cur + [s[0]], acc);
        }
      } else if s[0] == ',' {
        ScanFieldCount(s[1..], false, "", acc + [cur]);
      } else if s[0] == '"' {
        ScanFieldCount(s[1..], true, cur, acc);
      } else {
        ScanFieldCount(s[1..], false, cur + [s[0]], acc);
      }
    }
  }

  lemma SplitFieldsCount(line: string)
    ensures |SplitFields(line)| == 1 + CommasOutside(line, false)
  {
    ScanFieldCount(line, false, "", []);
  }

  /** A value with no quote or comma is read character by character. */
  lemma {:induction false} ScanPlain(v: string, t: string, cur: string, acc: seq<string>)
    requires !HasChar(v, ',') && !HasChar(v, '"')
    ensures Scan(v + t, false, cur, acc) == Scan(t, false, cur + v, acc)
    decreases |v|
  {
    if v == [] {
      assert v + t == t && cur + v == cur;
    } else {
      assert (v + t)[1..] == v[1..] + t;
      assert !HasChar(v[1..], ',') && !HasChar(v[1..], '"') by {
        forall i | 0 <= i < |v[1..]| ensures v[1..][i] == v[i + 1] { }
      }
      ScanPlain(v[1..], t, cur + [v[0]], acc);
      assert cur + [v[0]] + v[1..] == cur + v;
    }
  }

  /** Inside quotes, the doubled-quote form of `v` is read back as `v`. */
  lemma {:induction false} ScanDoubled(v: string, t: string, cur: string, acc: seq<string>)
    ensures Scan(DoubleQuotes(v) + t, true, cur, acc) == Scan(t, true, cur + v, acc)
    decreases |v|
  {
    if v == [] {
      assert DoubleQuotes(v) + t == t && cur + v == cur;
    } else {
      var rest := DoubleQuotes(v[1..]) + t;
      ScanDoubled(v[1..], t, cur + [v[0]], acc);
      assert cur + [v[0]] + v[1..] == cur + v;
      if v[0] == '"' {
        assert DoubleQuotes(v) + t == "\"\"" + rest;
        assert ("\"\"" + rest)[2..] == rest;
        assert cur + "\"" == cur + [v[0]];
      } else {
        assert DoubleQuotes(v) + t == [v[0]] + rest;
        assert ([v[0]] + rest)[1..] == rest;
      }
    }
  }

  /** One exported value followed by the end of the line or a comma is read
      back as the value. */
  lemma ScanSafe(v: string, t: string, acc: seq<string>)
    requires t == [] || t[0] == ','
    ensures Scan(Safe(v) + t, false, "", acc) == Scan(t, false, v, acc)
  {
    if NeedsQuotes(v) {
      var q := DoubleQuotes(v) + ("\"" + t);
      assert Safe(v) + t == "\"" + q;
      assert ("\"" + q)[1..] == q;
      ScanDoubled(v, "\"" + t, "", acc);
      assert "" + v == v;
      assert ("\"" + t)[1..] == t;
    } else {
      ScanPlain(v, t, "", acc);
      assert "" + v == v;
    }
  }

  /** Reading a line of exported values gives back the values. */
  lemma {:induction false} ScanJoin(vs: seq<string>, xs: seq<string>, acc: seq<string>)
    requires |xs| == |vs| >= 1
    requires forall i :: 0 <= i < |vs| ==> xs[i] == Safe(vs[i])
    ensures Scan(Join(',', xs), false, "", acc) == acc + vs
    decreases |vs|
  {
    if |vs| == 1 {
      ScanSafe(vs[0], "", acc);
      assert xs[0] + "" == xs[0];
    } else {
      var j := Join(',', xs[1..]);
      assert Join(',', xs) == xs[0] + ([','] + j);
      ScanSafe(vs[0], [','] + j, acc);
      assert ([','] + j)[1..] == j;
      ScanJoin(vs[1..], xs[1..], acc + [vs[0]]);
      assert acc + [vs[0]] + vs[1..] == acc + vs;
    }
  }

  // ---- import ----

  /** One imported row: `Omit<Transaction, 'id'>` as `importFromCSV` builds it.
      A column missing from the header or the line reads as `undefined` (`None`). */
  datatype Row = Row(amount: real, txType: Option<string>, category: Option<string>, date: Option<string>, notes: Option<string>)

  /** `xs.indexOf(x)`. */
  function IndexOf(xs: seq<string>, x: string): (i: int)
    ensures -1 <= i < |xs|
    ensures i >= 0 ==> xs[i] == x && forall j :: 0 <= j < i ==> xs[j] != x
    ensures i < 0 <==> forall j :: 0 <= j < |xs| ==> xs[j] != x
  {
    if xs == [] then -1
    else if xs[0] == x then 0
    else
      var i := IndexOf(xs[1..], x);
      if i < 0 then -1 else i + 1
  }

  /** `cols[i]`, which is `undefined` out of range (including at index -1). */
  function Column(cols: seq<string>, i: int): (r: Option<string>)
    ensures r.Some? <==> 0 <= i < |cols|
  {
    if 0 <= i < |cols| then Some(cols[i]) else None
  }

  /** The trimmed names of the first line. */
  function HeaderOf(text: string): seq<string> {
    TrimAll(Split(SplitLines(text)[0], ','))
  }

  /** `cols[header.indexOf(name)]`: the text in the first column the header
      calls `name`, or `undefined` when no column has that name or the line
      is too short to reach it. */
  function Field(header: seq<string>, cols: seq<string>, name: string): (r: Option<string>)
    ensures name !in header ==> r == None
    ensures forall i :: 0 <= i < |header| && header[i] == name && name !in header[..i] ==> r == Column(cols, i)
  {
    Column(cols, IndexOf(header, name))
  }

  /** The amount column holds text that reads as a number above zero. */
  predicate AmountOk(header: seq<string>, cols: seq<string>, parse: string -> Option<real>) {
    var a := Field(header, cols, "amount");
    a.Some? && parse(a.value).Some? && parse(a.value).value > 0.0
  }

  /** The row the columns of a line yield: exactly when the amount is a finite
      number above zero, with each field taken from the column its header
      names and empty notes dropped. */
  function RowOf(header: seq<string>, cols: seq<string>, parse: string -> Option<real>): (r: Option<Row>)
    ensures r.Some? <==> AmountOk(header, cols, parse)
    ensures r.Some? ==> var notes := Field(header, cols, "notes");
      && r.value.amount == parse(Field(header, cols, "amount").value).value
      && r.value.txType == Field(header, cols, "type")
      && r.value.category == Field(header, cols, "category")
      && r.value.date == Field(header, cols, "date")
      && r.value.notes == (if Truthy(notes) then notes else None)
    ensures r.Some? ==> r.value.amount > 0.0 && r.value.notes != Some("")
  {
    var amountText := Field(header, cols, "amount");
    var amount := if amountText.Some? then parse(amountText.value) else None;
    if amount.None? || amount.value <= 0.0 then None
    else
      var notes := Field(header, cols, "notes");
      Some(Row(amount.value, Field(header, cols, "type"), Field(header, cols, "category"),
               Field(header, cols, "date"), if Truthy(notes) then notes else None))
  }

  /** The row a line yields: a blank line yields none, and any other yields
      one exactly when its amount column reads as a number above zero. */
  function ParseRow(header: seq<string>, line: string, parse: string -> Option<real>): (r: Option<Row>)
    ensures r.Some? <==> Trim(line) != "" && AmountOk(header, SplitFields(line), parse)
    ensures r.Some? ==> r == RowOf(header, SplitFields(line), parse)
    ensures r.Some? ==> r.value.amount > 0.0 && r.value.notes != Some("")
  {
    if Trim(line) == "" then None else RowOf(header, SplitFields(line), parse)
  }

  /** Columns are found by their header names, not their places: swapping two
      columns of the header together with the same two columns of the line
      leaves the row unchanged, when the header names are distinct. */
  lemma RowOfSwap(header: seq<string>, cols: seq<string>, i: int, j: int, parse: string -> Option<real>)
    requires 0 <= i < j < |header| && j < |cols|
    requires forall a, b :: 0 <= a < b < |header| ==> header[a] != header[b]
    ensures RowOf(header[i := header[j]][j := header[i]], cols[i := cols[j]][j := cols[i]], parse)
         == RowOf(header, cols, parse)
  {
    FieldSwap(header, cols, i, j, "amount");
    FieldSwap(header, cols, i, j, "type");
    FieldSwap(header, cols, i, j, "category");
    FieldSwap(header, cols, i, j, "date");
    FieldSwap(header, cols, i, j, "notes");
    RowOfSameFields(header[i := header[j]][j := header[i]], cols[i := cols[j]][j := cols[i]], header, cols, parse);
  }

  /** The row depends on the line only through the five named fields. */
  lemma RowOfSameFields(h: seq<string>, c: seq<string>, header: seq<string>, cols: seq<string>, parse: string -> Option<real>)
    requires Field(h, c, "amount") == Field(header, cols, "amount")
    requires Field(h, c, "type") == Field(header, cols, "type")
    requires Field(h, c, "category") == Field(header, cols, "category")
    requires Field(h, c, "date") == Field(header, cols, "date")
    requires Field(h, c, "notes") == Field(header, cols, "notes")
    ensures RowOf(h, c, parse) == RowOf(header, cols, parse)
  {
  }

  lemma FieldSwap(header: seq<string>, cols: seq<string>, i: int, j: int, name: string)
    requires 0 <= i < j < |header| && j < |cols|
    requires forall a, b :: 0 <= a < b < |header| ==> header[a] != header[b]
    ensures Field(header[i := header[j]][j := header[i]], cols[i := cols[j]][j := cols[i]], name)
         == Field(header, cols, name)
  {
    var h := header[i := header[j]][j := header[i]];
    var c := cols[i := cols[j]][j := cols[i]];
    if name !in header {
      assert name !in h by {
        forall k | 0 <= k < |h| ensures h[k] != name {
          assert h[k] == header[if k == i then j else if k == j then i else k];
        }
      }
    } else {
      var k :| 0 <= k < |header| && header[k] == name;
      assert name !in header[..k];
      var k' := if k == i then j else if k == j then i else k;
      assert h[k'] == name;
      assert name !in h[..k'] by {
        forall m | 0 <= m < k' ensures h[m] != name {
          assert h[m] == header[if m == i then j else if m == j then i else m];
        }
      }
      if k < |cols| {
        assert c[k'] == cols[k];
      }
    }
  }

  /** The rows a sequence of lines yields, in order, skipping the lines that
      yield none. */
  function Collect(lines: seq<string>, rowOf: string -> Option<Row>): (r: seq<Row>)
    ensures |r| <= |lines|
  {
    if lines == [] then []
    else
      var row := rowOf(lines[|lines| - 1]);
      Collect(lines[..|lines| - 1], rowOf) + (if row.Some? then [row.value] else [])
  }

  lemma CollectStep(lines: seq<string>, k: int, rowOf: string -> Option<Row>)
    requires 0 <= k < |lines|
    ensures var row := rowOf(lines[k]);
      Collect(lines[..k + 1], rowOf) == Collect(lines[..k], rowOf) + (if row.Some? then [row.value] else [])
  {
    assert lines[..k + 1][..k] == lines[..k];
  }

  /** Every collected row is one some line yields. */
  lemma {:induction false} CollectFrom(lines: seq<string>, rowOf: string -> Option<Row>, j: int)
    requires 0 <= j < |Collect(lines, rowOf)|
    ensures exists i :: 0 <= i < |lines| && rowOf(lines[i]) == Some(Collect(lines, rowOf)[j])
    decreases |lines|
  {
    var n := |lines| - 1;
    var init := lines[..n];
    if j < |Collect(init, rowOf)| {
      CollectFrom(init, rowOf, j);
      var i :| 0 <= i < |init| && rowOf(init[i]) == Some(Collect(init, rowOf)[j]);
      assert lines[i] == init[i];
    } else {
      assert rowOf(lines[n]) == Some(Collect(lines, rowOf)[j]);
    }
  }

  /** When every line yields a row, the rows are collected one per line. */
  lemma {:induction false} CollectAll(lines: seq<string>, rowOf: string -> Option<Row>, rows: seq<Row>)
    requires |lines| == |rows|
    requires forall i :: 0 <= i < |lines| ==> rowOf(lines[i]) == Some(rows[i])
    ensures Collect(lines, rowOf) == rows
    decreases |lines|
  {
    if lines != [] {
      var n := |lines| - 1;
      CollectAll(lines[..n], rowOf, rows[..n]);
      assert rows[..n] + [rows[n]] == rows;
    }
  }

  lemma ParseRowCases(header: seq<string>, line: string, parse: string -> Option<real>)
    ensures Trim(line) == "" ==> ParseRow(header, line, parse) == None
    ensures Trim(line) != "" ==> ParseRow(header, line, parse) == RowOf(header, SplitFields(line), parse)
  {
  }

  /** The rows `importFromCSV` resolves to: at most one per line after the header. */
  function Imported(text: string, parse: string -> Option<real>): (r: seq<Row>)
    ensures |r| <= |SplitLines(text)| - 1
  {
    var header := HeaderOf(text);
    Collect(SplitLines(text)[1..], line => ParseRow(header, line, parse))
  }

  /** Only rows with a finite amount above zero are imported, and no imported
      row has empty notes. */
  lemma ImportedRowsValid(text: string, parse: string -> Option<real>)
    ensures forall j :: 0 <= j < |Imported(text, parse)| ==>
      Imported(text, parse)[j].amount > 0.0 && Imported(text, parse)[j].notes != Some("")
  {
    var header := HeaderOf(text);
    var lines := SplitLines(text)[1..];
    var rowOf := line => ParseRow(header, line, parse);
    var rows := Collect(lines, rowOf);
    assert Imported(text, parse) == rows;
    forall j | 0 <= j < |rows|
      ensures rows[j].amount > 0.0 && rows[j].notes != Some("")
    {
      CollectFrom(lines, rowOf, j);
      var i :| 0 <= i < |lines| && rowOf(lines[i]) == Some(rows[j]);
      assert ParseRow(header, lines[i], parse) == Some(rows[j]);
    }
  }

  /** `importFromCSV(file)`, on the file's text. */
  method ImportCSV(text: string, parse: string -> Option<real>) returns (out: seq<Row>)
    ensures out == Imported(text, parse)
  {
    var lines := SplitLines(text);
    var header := TrimAll(Split(lines[0], ','));
    var rest := lines[1..];
    ghost var rowOf := line => ParseRow(header, line, parse);
    out := [];
    var k := 0;
    while k < |rest|
      invariant 0 <= k <= |rest|
      invariant out == Collect(rest[..k], rowOf)
    {
      var line := rest[k];
      var row: Option<Row>;
      if Trim(line) == "" {
        row := None;
      } else {
        var cols := SplitCSV(line);
        row := RowOf(header, cols, parse);
      }
      ParseRowCases(header, line, parse);
      CollectStep(rest, k, rowOf);
      if row.Some? {
        out := out + [row.value];
      }
      k := k + 1;
    }
    assert rest[..k] == rest;
  }

  // ---- the round trip ----

  /** A value that survives export and import unchanged. */
  predicate PlainValue(v: string) {
    Trimmed(v) && NoLineBreak(v)
  }

  /** A row that export then import gives back: a positive amount whose text is
      plain and reads back as the amount, and text values with no surrounding
      spaces and no line breaks. */
  predicate Exportable(t: Transaction, show: real -> string, parse: string -> Option<real>) {
    && t.amount > 0.0
    && PlainValue(show(t.amount)) && !NeedsQuotes(show(t.amount))
    && parse(show(t.amount)) == Some(t.amount)
    && PlainValue(t.id) && PlainValue(t.txType) && PlainValue(t.category)
    && PlainValue(t.date) && PlainValue(t.notes.GetOr(""))
  }

  /** The row import makes of an exported transaction: id and recurrence are not
      exported, and empty notes come back absent. */
  function Reimported(t: Transaction): Row {
    Row(t.amount, Some(t.txType), Some(t.category), Some(t.date), if Truthy(t.notes) then t.notes else None)
  }

  /** Importing the text of an export gives back every row, in order. */
  lemma ExportThenImport(rows: seq<Transaction>, show: real -> string, parse: string -> Option<real>)
    requires forall i :: 0 <= i < |rows| ==> Exportable(rows[i], show, parse)
    ensures Imported(CsvText(rows, show), parse) == ReimportedAll(rows)
  {
    var ls := CsvLines(rows, show);
    forall i | 0 <= i < |ls| ensures NoLineBreak(ls[i]) {
      if i == 0 {
        HeaderNoBreak();
      } else {
        RowLineNoBreak(rows[i - 1], show);
      }
    }
    SplitLinesJoin(ls);
    HeaderReadsBack();
    var rowOf := line => ParseRow(Header, line, parse);
    forall i | 0 <= i < |rows| ensures rowOf(ls[1..][i]) == Some(ReimportedAll(rows)[i]) {
      RowLineParses(rows[i], show, parse);
    }
    CollectAll(ls[1..], rowOf, ReimportedAll(rows));
  }

  function ReimportedAll(rows: seq<Transaction>): (r: seq<Row>)
    ensures |r| == |rows| && forall i :: 0 <= i < |rows| ==> r[i] == Reimported(rows[i])
  {
    seq(|rows|, i requires 0 <= i < |rows| => Reimported(rows[i]))
  }

  lemma HeaderNoBreak()
    ensures NoLineBreak(Join(',', Header))
  {
    forall i | 0 <= i < |Header| ensures NoLineBreak(Header[i]) {
    }
    JoinNoBreak(Header);
  }

  lemma HeaderReadsBack()
    ensures TrimAll(Split(Join(',', Header), ',')) == Header
  {
    forall i | 0 <= i < |Header| ensures !HasChar(Header[i], ',') && Trimmed(Header[i]) {
    }
    SplitJoin(Header, ',');
  }

  lemma HeaderColumns()
    ensures IndexOf(Header, "amount") == 1 && IndexOf(Header, "type") == 2
    ensures IndexOf(Header, "category") == 3 && IndexOf(Header, "date") == 4
    ensures IndexOf(Header, "notes") == 5
  {
    assert Header[0] == "id" && Header[1] == "amount" && Header[2] == "type";
    assert Header[3] == "category" && Header[4] == "date" && Header[5] == "notes";
  }

  lemma RowLineNoBreak(t: Transaction, show: real -> string)
    requires NoLineBreak(t.id) && NoLineBreak(show(t.amount)) && NoLineBreak(t.txType)
    requires NoLineBreak(t.category) && NoLineBreak(t.date) && NoLineBreak(t.notes.GetOr(""))
    ensures NoLineBreak(RowLine(t, show))
  {
    var v := RowValues(t, show);
    var xs := [Safe(v[0]), v[1], Safe(v[2]), Safe(v[3]), Safe(v[4]), Safe(v[5])];
    forall i | 0 <= i < 6 ensures NoLineBreak(xs[i]) {
      if i != 1 {
        SafeNoBreak(v[i]);
      }
    }
    JoinNoBreak(xs);
  }

  lemma SafeNoBreak(v: string)
    requires NoLineBreak(v)
    ensures NoLineBreak(Safe(v))
  {
    DoubleQuotesNoBreak(v);
    if NeedsQuotes(v) {
      var r := Safe(v);
      forall i | 0 <= i < |r| ensures r[i] != '\n' && r[i] != '\r' {
        if 0 < i < |r| - 1 {
          assert r[i] == DoubleQuotes(v)[i - 1];
        }
      }
    }
  }

  lemma {:induction false} DoubleQuotesNoBreak(v: string)
    requires NoLineBreak(v)
    ensures NoLineBreak(DoubleQuotes(v))
    decreases |v|
  {
    if v != [] {
      assert NoLineBreak(v[1..]) by {
        forall i | 0 <= i < |v[1..]| ensures v[1..][i] == v[i + 1] { }
      }
      DoubleQuotesNoBreak(v[1..]);
      var h := if v[0] == '"' then "\"\"" else [v[0]];
      var r := DoubleQuotes(v);
      forall i | 0 <= i < |r| ensures r[i] != '\n' && r[i] != '\r' {
        if i >= |h| {
          assert r[i] == DoubleQuotes(v[1..])[i - |h|];
        }
      }
    }
  }

  lemma {:induction false} JoinNoBreak(xs: seq<string>)
    requires forall i :: 0 <= i < |xs| ==> NoLineBreak(xs[i])
    ensures NoLineBreak(Join(',', xs))
    decreases |xs|
  {
    if |xs| > 1 {
      JoinNoBreak(xs[1..]);
      var j := Join(',', xs[1..]);
      var r := Join(',', xs);
      forall i | 0 <= i < |r| ensures r[i] != '\n' && r[i] != '\r' {
        if i < |xs[0]| {
          assert r[i] == xs[0][i];
        } else if i > |xs[0]| {
          assert r[i] == j[i - |xs[0]| - 1];
        }
      }
    }
  }

  /** One exported row line is imported as the row. */
  lemma RowLineParses(t: Transaction, show: real -> string, parse: string -> Option<real>)
    requires Exportable(t, show, parse)
    ensures ParseRow(Header, RowLine(t, show), parse) == Some(Reimported(t))
  {
    var v := RowValues(t, show);
    RowLineFields(t, show);
    RowLineNotBlank([Safe(v[0]), v[1], Safe(v[2]), Safe(v[3]), Safe(v[4]), Safe(v[5])]);
    ParseRowCases(Header, RowLine(t, show), parse);
    RowOfValues(t, show, parse);
  }

  lemma RowLineFields(t: Transaction, show: real -> string)
    requires Trimmed(show(t.amount)) && !NeedsQuotes(show(t.amount))
    requires Trimmed(t.id) && Trimmed(t.txType) && Trimmed(t.category)
    requires Trimmed(t.date) && Trimmed(t.notes.GetOr(""))
    ensures SplitFields(RowLine(t, show)) == RowValues(t, show)
  {
    var v := RowValues(t, show);
    var xs := [Safe(v[0]), v[1], Safe(v[2]), Safe(v[3]), Safe(v[4]), Safe(v[5])];
    assert Safe(v[1]) == v[1];
    forall i | 0 <= i < |v|
      ensures xs[i] == Safe(v[i]) && Trimmed(v[i])
    {
      assert i == 0 || i == 1 || i == 2 || i == 3 || i == 4 || i == 5;
    }
    FieldsOfJoin(v, xs);
  }

  /** Reading back a line of exported values that have no surrounding spaces
      gives the values. */
  lemma FieldsOfJoin(vs: seq<string>, xs: seq<string>)
    requires |xs| == |vs| >= 1
    requires forall i :: 0 <= i < |vs| ==> xs[i] == Safe(vs[i]) && Trimmed(vs[i])
    ensures SplitFields(Join(',', xs)) == vs
  {
    ScanJoin(vs, xs, []);
    assert [] + vs == vs;
    TrimAllTrimmed(vs);
  }

  lemma TrimAllTrimmed(v: seq<string>)
    requires forall i :: 0 <= i < |v| ==> Trimmed(v[i])
    ensures TrimAll(v) == v
  {
  }

  lemma RowOfValues(t: Transaction, show: real -> string, parse: string -> Option<real>)
    requires t.amount > 0.0 && parse(show(t.amount)) == Some(t.amount)
    ensures RowOf(Header, RowValues(t, show), parse) == Some(Reimported(t))
  {
    HeaderColumns();
  }

  lemma RowLineNotBlank(xs: seq<string>)
    requires |xs| >= 2
    ensures Trim(Join(',', xs)) != ""
  {
    var j := Join(',', xs);
    JoinFirst(xs);
    NotBlank(j, |xs[0]|);
  }

  lemma JoinFirst(xs: seq<string>)
    requires |xs| >= 2
    ensures |Join(',', xs)| > |xs[0]| && Join(',', xs)[|xs[0]|] == ','
  {
    assert Join(',', xs) == xs[0] + [','] + Join(',', xs[1..]);
  }

  lemma NotBlank(s: string, k: int)
    requires 0 <= k < |s| && !IsSpace(s[k])
    ensures Trim(s) != ""
  {
  }

  /** Without quotes in the line, `splitCSV` is `split(',')` with each piece trimmed. */
  lemma {:induction false} ScanUnquoted(s: string, cur: string, acc: seq<string>)
    requires !HasChar(s, '"')
    ensures Scan(s, false, cur, acc) == acc + [cur + Split(s, ',')[0]] + Split(s, ',')[1..]
    decreases |s|
  {
    if s == [] {
      assert cur + "" == cur;
    } else {
      assert !HasChar(s[1..], '"') by {
        forall i | 0 <= i < |s[1..]| ensures s[1..][i] == s[i + 1] { }
      }
      var sp := Split(s[1..], ',');
      if s[0] == ',' {
        ScanUnquoted(s[1..], "", acc + [cur]);
        FieldEnds(acc, cur, sp);
      } else {
        assert s[0] != '"';
        ScanUnquoted(s[1..], cur + [s[0]], acc);
        FieldGrows(acc, cur, s[0], sp);
      }
    }
  }

  /** A comma ends the field being read; the rest starts a new one. */
  lemma FieldEnds(acc: seq<string>, cur: string, sp: seq<string>)
    requires sp != []
    ensures acc + [cur] + ["" + sp[0]] + sp[1..] == acc + [cur + ""] + sp
  {
    assert "" + sp[0] == sp[0];
    assert [sp[0]] + sp[1..] == sp;
    assert cur + "" == cur;
  }

  /** Any other character joins the field being read. */
  lemma FieldGrows(acc: seq<string>, cur: string, c: char, sp: seq<string>)
    requires sp != []
    ensures acc + [cur + [c] + sp[0]] + sp[1..] == acc + [cur + ([c] + sp[0])] + sp[1..]
  {
    assert cur + [c] + sp[0] == cur + ([c] + sp[0]);
  }

  lemma SplitFieldsUnquoted(line: string)
    requires !HasChar(line, '"')
    ensures SplitFields(line) == TrimAll(Split(line, ','))
  {
    ScanUnquoted(line, "", []);
    FieldsFromStart(Split(line, ','));
  }

  lemma FieldsFromStart(xs: seq<string>)
    requires xs != []
    ensures [] + ["" + xs[0]] + xs[1..] == xs
  {
    assert "" + xs[0] == xs[0];
  }
}
