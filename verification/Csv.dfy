/**
 The CSV exports: cell quoting, row printing and streaming, against a parser
 of RFC 4180 section 2 (rules 5 to 7) with LF line ends.
 */
module Csv {
  import opened Options
  import opened Text

  predicate Special(c: char) { c == '"' || c == ',' || c == '\r' || c == '\n' }

  predicate Plain(s: string) { forall i :: 0 <= i < |s| ==> !Special(s[i]) }

  /** s.replace(/"/g, '""') */
  function DoubleQuotes(s: string): string {
    if s == "" then "" else (if s[0] == '"' then "\"\"" else [s[0]]) + DoubleQuotes(s[1..])
  }

  function CsvCell(s: string): string {
    if s == "" then "" else if !Plain(s) then "\"" + DoubleQuotes(s) + "\"" else s
  }

  /** cells.map(csvCell).join(",") */
  function JoinCells(cells: seq<string>): string {
    if cells == [] then ""
    else if |cells| == 1 then CsvCell(cells[0])
    else CsvCell(cells[0]) + "," + JoinCells(cells[1..])
  }

  function PrintRow(cells: seq<string>): string { JoinCells(cells) + "\n" }

  function Print(rows: seq<seq<string>>): string {
    if rows == [] then "" else PrintRow(rows[0]) + Print(rows[1..])
  }

  /** A cell is printed as it is exactly when it holds no quote, comma, CR or LF;
      otherwise in quotes, every quote inside doubled. */
  lemma QuotedExactlyWhenNeeded(s: string)
    ensures CsvCell(s) == s <==> '"' !in s && ',' !in s && '\r' !in s && '\n' !in s
    ensures '"' in s || ',' in s || '\r' in s || '\n' in s ==> CsvCell(s) == "\"" + Replace(s, "\"", "\"\"") + "\""
  {
    DoublingReplaces(s);
    if Plain(s) {
      assert forall c :: c in s ==> !Special(c);
    } else {
      var i :| 0 <= i < |s| && Special(s[i]);
      assert s[i] in s;
      DoublingGrows(s);
    }
  }

  lemma {:induction false} DoublingGrows(s: string)
    ensures |DoubleQuotes(s)| >= |s|
  {
    if s != "" { DoublingGrows(s[1..]); }
  }

  lemma {:induction false} DoublingReplaces(s: string)
    ensures DoubleQuotes(s) == Replace(s, "\"", "\"\"")
  {
    if s != "" {
      assert "\"" <= s <==> s[0] == '"';
      DoublingReplaces(s[1..]);
    }
  }

  // ---- reading it back --------------------------------------------------------------

  datatype Parsed<T> = Parsed(value: T, rest: string)

  predicate AtEnd(s: string) { s == "" || s[0] == ',' || s[0] == '\n' }

  /** Inside quotes: a doubled quote is one quote, a single one closes the field. */
  function ParseQuoted(s: string): (r: Option<Parsed<string>>)
    ensures r.Some? ==> |r.value.rest| < |s|
  {
    if s == "" then None
    else if s[0] != '"' then
      var r := ParseQuoted(s[1..]);
      if r.None? then None else Some(Parsed([s[0]] + r.value.value, r.value.rest))
    else if |s| >= 2 && s[1] == '"' then
      var r := ParseQuoted(s[2..]);
      if r.None? then None else Some(Parsed("\"" + r.value.value, r.value.rest))
    else Some(Parsed("", s[1..]))
  }

  /** Without quotes: up to the comma or line end; quotes and CR are not allowed. */
  function ParsePlain(s: string): (r: Option<Parsed<string>>)
    ensures r.Some? ==> |r.value.rest| <= |s|
  {
    if AtEnd(s) then Some(Parsed("", s))
    else if Special(s[0]) then None
    else
      var r := ParsePlain(s[1..]);
      if r.None? then None else Some(Parsed([s[0]] + r.value.value, r.value.rest))
  }

  function ParseField(s: string): (r: Option<Parsed<string>>)
    ensures r.Some? ==> |r.value.rest| <= |s| && AtEnd(r.value.rest)
  {
    var r := if s != "" && s[0] == '"' then ParseQuoted(s[1..]) else ParsePlain(s);
    if r.None? || !AtEnd(r.value.rest) then None else r
  }

  function ParseRecord(s: string): (r: Option<Parsed<seq<string>>>)
    ensures r.Some? && s != "" ==> |r.value.rest| < |s|
    decreases |s|
  {
    var f := ParseField(s);
    if f.None? then None
    else if f.value.rest == "" then Some(Parsed([f.value.value], ""))
    else if f.value.rest[0] == '\n' then Some(Parsed([f.value.value], f.value.rest[1..]))
    else
      var r := ParseRecord(f.value.rest[1..]);
      if r.None? then None else Some(Parsed([f.value.value] + r.value.value, r.value.rest))
  }

  function ParseFile(s: string): Option<seq<seq<string>>>
    decreases |s|
  {
    if s == "" then Some([])
    else
      var r := ParseRecord(s);
      if r.None? then None
      else
        var more := ParseFile(r.value.rest);
        if more.None? then None else Some([r.value.value] + more.value)
  }

  // ---- round trip ----------------------------------------------------------------------

  lemma {:induction false} QuotedReadsBack(s: string, rest: string)
    requires AtEnd(rest)
    ensures ParseQuoted(DoubleQuotes(s) + "\"" + rest) == Some(Parsed(s, rest))
  {
    if s == "" {
      assert ("\"" + rest)[1..] == rest;
      assert DoubleQuotes(s) + "\"" + rest == "\"" + rest;
    } else {
      QuotedReadsBack(s[1..], rest);
      var tail := DoubleQuotes(s[1..]) + "\"" + rest;
      if s[0] == '"' {
        assert DoubleQuotes(s) + "\"" + rest == "\"\"" + tail;
        assert ("\"\"" + tail)[2..] == tail;
        assert "\"" + s[1..] == s;
      } else {
        assert DoubleQuotes(s) + "\"" + rest == [s[0]] + tail;
        assert ([s[0]] + tail)[1..] == tail;
        assert [s[0]] + s[1..] == s;
      }
    }
  }

  lemma {:induction false} PlainReadsBack(s: string, rest: string)
    requires Plain(s) && AtEnd(rest)
    ensures ParsePlain(s + rest) == Some(Parsed(s, rest))
  {
    if s == "" {
      assert s + rest == rest;
    } else {
      assert (s + rest)[1..] == s[1..] + rest && [s[0]] + s[1..] == s;
      PlainReadsBack(s[1..], rest);
    }
  }

  lemma QuotedFieldReads(body: string, p: Parsed<string>)
    requires ParseQuoted(body) == Some(p) && AtEnd(p.rest)
    ensures ParseField("\"" + body) == Some(p)
  {
    assert ("\"" + body)[1..] == body;
  }

  lemma QuotedShape(s: string, rest: string)
    requires !Plain(s)
    ensures CsvCell(s) + rest == "\"" + (DoubleQuotes(s) + "\"" + rest)
  {
  }

  lemma QuotedCellReadsBack(s: string, rest: string)
    requires AtEnd(rest) && !Plain(s)
    ensures ParseField(CsvCell(s) + rest) == Some(Parsed(s, rest))
  {
    QuotedShape(s, rest);
    QuotedReadsBack(s, rest);
    QuotedFieldReads(DoubleQuotes(s) + "\"" + rest, Parsed(s, rest));
  }

  lemma PlainCellReadsBack(s: string, rest: string)
    requires AtEnd(rest) && Plain(s)
    ensures ParseField(CsvCell(s) + rest) == Some(Parsed(s, rest))
  {
    PlainReadsBack(s, rest);
    assert CsvCell(s) == s;
    assert s + rest != "" ==> (s + rest)[0] == if s == "" then rest[0] else s[0];
  }

  lemma CellReadsBack(s: string, rest: string)
    requires AtEnd(rest)
    ensures ParseField(CsvCell(s) + rest) == Some(Parsed(s, rest))
  {
    if Plain(s) { PlainCellReadsBack(s, rest); } else { QuotedCellReadsBack(s, rest); }
  }

  /** How a parser sees a row: no cells at all print like one empty cell. */
  function AsRead(cells: seq<string>): seq<string> { if cells == [] then [""] else cells }

  lemma LastCellReads(cell: string, rest: string)
    ensures ParseRecord(CsvCell(cell) + ("\n" + rest)) == Some(Parsed([cell], rest))
  {
    CellReadsBack(cell, "\n" + rest);
    assert ("\n" + rest)[1..] == rest;
  }

  lemma NextCellReads(cell: string, tail: string, cells: seq<string>, rest: string)
    requires ParseRecord(tail) == Some(Parsed(cells, rest))
    ensures ParseRecord(CsvCell(cell) + ("," + tail)) == Some(Parsed([cell] + cells, rest))
  {
    CellReadsBack(cell, "," + tail);
    assert ("," + tail)[1..] == tail;
  }

  lemma RowShape(cells: seq<string>, rest: string)
    requires |cells| > 1
    ensures PrintRow(cells) + rest == CsvCell(cells[0]) + ("," + (PrintRow(cells[1..]) + rest))
  {
    var x, j := CsvCell(cells[0]), JoinCells(cells[1..]);
    assert JoinCells(cells) == x + "," + j;
    Regroup(x, j, rest);
  }

  lemma Regroup(x: string, j: string, rest: string)
    ensures ((x + "," + j) + "\n") + rest == x + ("," + ((j + "\n") + rest))
  {
  }

  lemma ShortRowShape(cells: seq<string>, rest: string)
    requires |cells| <= 1
    ensures PrintRow(cells) + rest == CsvCell(AsRead(cells)[0]) + ("\n" + rest)
    ensures AsRead(cells) == [AsRead(cells)[0]]
  {
  }

  lemma {:induction false} RowReadsBack(cells: seq<string>, rest: string)
    ensures ParseRecord(PrintRow(cells) + rest) == Some(Parsed(AsRead(cells), rest))
    decreases |cells|
  {
    if |cells| <= 1 {
      ShortRowShape(cells, rest);
      LastCellReads(AsRead(cells)[0], rest);
    } else {
      RowReadsBack(cells[1..], rest);
      RowShape(cells, rest);
      NextCellReads(cells[0], PrintRow(cells[1..]) + rest, cells[1..], rest);
      assert [cells[0]] + cells[1..] == cells;
    }
  }

  function AllAsRead(rows: seq<seq<string>>): seq<seq<string>> {
    if rows == [] then [] else [AsRead(rows[0])] + AllAsRead(rows[1..])
  }

  lemma {:induction false} FileReadsBack(rows: seq<seq<string>>)
    ensures ParseFile(Print(rows)) == Some(AllAsRead(rows))
  {
    if rows != [] {
      RowReadsBack(rows[0], Print(rows[1..]));
      FileReadsBack(rows[1..]);
    }
  }

  lemma {:induction false} AllAsReadIsSame(rows: seq<seq<string>>)
    ensures AllAsRead(rows) == rows <==> forall i :: 0 <= i < |rows| ==> rows[i] != []
  {
    if rows != [] {
      AllAsReadIsSame(rows[1..]);
      assert forall i :: 0 <= i < |rows[1..]| ==> rows[1..][i] == rows[i + 1];
      assert AllAsRead(rows)[0] == AsRead(rows[0]) && AllAsRead(rows)[1..] == AllAsRead(rows[1..]);
      if AllAsRead(rows) == rows {
        forall i | 0 <= i < |rows| ensures rows[i] != [] { if i > 0 { assert rows[i] == rows[1..][i - 1]; } }
      }
    }
  }

  /** The printed rows parse back to the same cells, whatever the cells hold,
      exactly when every row has at least one cell. */
  lemma RoundTripExactly(rows: seq<seq<string>>)
    ensures ParseFile(Print(rows)) == Some(rows) <==> forall i :: 0 <= i < |rows| ==> rows[i] != []
  {
    FileReadsBack(rows);
    AllAsReadIsSame(rows);
  }

  /** So two exports with the same bytes hold the same cells. */
  lemma PrintIsInjective(a: seq<seq<string>>, b: seq<seq<string>>)
    requires forall i :: 0 <= i < |a| ==> a[i] != []
    requires forall i :: 0 <= i < |b| ==> b[i] != []
    requires Print(a) == Print(b)
    ensures a == b
  {
    RoundTripExactly(a);
    RoundTripExactly(b);
  }

  // ---- the streams ------------------------------------------------------------------------

  lemma {:induction false} PrintSnoc(rows: seq<seq<string>>, row: seq<string>)
    ensures Print(rows + [row]) == Print(rows) + PrintRow(row)
  {
    if rows == [] {
      assert rows + [row] == [row];
      assert Print([row]) == PrintRow(row) + Print([]);
    } else {
      assert (rows + [row])[1..] == rows[1..] + [row];
      PrintSnoc(rows[1..], row);
    }
  }

  /** headers.join(","), which does not quote. */
  function JoinHeaders(hs: seq<string>): string {
    if hs == [] then "" else if |hs| == 1 then hs[0] else hs[0] + "," + JoinHeaders(hs[1..])
  }

  lemma {:induction false} PlainHeadersNeedNoQuotes(hs: seq<string>)
    requires forall i :: 0 <= i < |hs| ==> Plain(hs[i])
    ensures JoinHeaders(hs) == JoinCells(hs)
  {
    if |hs| > 1 { PlainHeadersNeedNoQuotes(hs[1..]); }
  }

  /** Header, rows, and a comment line when the row cap was reached.  The stream
      parses back to all of them. */
  method StreamCsv(headers: seq<string>, rows: seq<seq<string>>, cap: nat, notice: string) returns (out: string)
    requires headers != [] && forall i :: 0 <= i < |headers| ==> Plain(headers[i])
    requires notice != "" && Plain(notice)
    ensures out == Print([headers] + rows + if |rows| >= cap then [[notice]] else [])
    ensures (forall i :: 0 <= i < |rows| ==> rows[i] != [])
        ==> ParseFile(out) == Some([headers] + rows + if |rows| >= cap then [[notice]] else [])
  {
    PlainHeadersNeedNoQuotes(headers);
    out := JoinHeaders(headers) + "\n";
    assert [headers] + rows[..0] == [] + [headers];
    PrintSnoc([], headers);
    for i := 0 to |rows|
      invariant out == Print([headers] + rows[..i])
    {
      out := out + (JoinCells(rows[i]) + "\n");
      PrintSnoc([headers] + rows[..i], rows[i]);
      assert [headers] + rows[..i + 1] == [headers] + rows[..i] + [rows[i]];
    }
    assert rows[..|rows|] == rows;
    PrintSnoc([headers] + rows, [notice]);
    if |rows| >= cap {
      out := out + (notice + "\n");
    } else {
      assert [headers] + rows + [] == [headers] + rows;
    }
    RoundTripExactly([headers] + rows + if |rows| >= cap then [[notice]] else []);
  }

  // ---- the audit export ---------------------------------------------------------------------

  datatype AuditRow = AuditRow(ts: string, actor: Option<string>, actorKind: Option<string>, action: string,
                               target: Option<string>, outcome: string, ip: Option<string>,
                               userAgent: Option<string>, detail: Option<string>) {
    function Cells(): seq<string> {
      [ts, actor.GetOr(""), actorKind.GetOr(""), action, target.GetOr(""), outcome, ip.GetOr(""),
       userAgent.GetOr(""), detail.GetOr("")]
    }
  }

  function AuditCells(rows: seq<AuditRow>): seq<seq<string>> {
    seq(|rows|, i requires 0 <= i < |rows| => rows[i].Cells())
  }

  /** A reader finds the nine columns of every row, in this order. */
  lemma AuditExportReadsBack(rows: seq<AuditRow>)
    ensures var file := ParseFile(Print(AuditCells(rows)));
            file.Some? && |file.value| == |rows| &&
            forall i :: 0 <= i < |rows| ==>
              file.value[i] == [rows[i].ts, rows[i].actor.GetOr(""), rows[i].actorKind.GetOr(""), rows[i].action,
                                rows[i].target.GetOr(""), rows[i].outcome, rows[i].ip.GetOr(""),
                                rows[i].userAgent.GetOr(""), rows[i].detail.GetOr("")]
  {
    RoundTripExactly(AuditCells(rows));
  }

  /** Two audit rows agree column by column, a null being the same as an empty
      text. */
  predicate SameColumns(a: AuditRow, b: AuditRow) {
    && a.ts == b.ts && a.actor.GetOr("") == b.actor.GetOr("") && a.actorKind.GetOr("") == b.actorKind.GetOr("")
    && a.action == b.action && a.target.GetOr("") == b.target.GetOr("") && a.outcome == b.outcome
    && a.ip.GetOr("") == b.ip.GetOr("") && a.userAgent.GetOr("") == b.userAgent.GetOr("")
    && a.detail.GetOr("") == b.detail.GetOr("")
  }

  lemma SameColumnsExactly(a: AuditRow, b: AuditRow)
    ensures a.Cells() == b.Cells() <==> SameColumns(a, b)
  {
    var x, y := a.Cells(), b.Cells();
    if x == y {
      assert x[0] == y[0] && x[1] == y[1] && x[2] == y[2] && x[3] == y[3] && x[4] == y[4];
      assert x[5] == y[5] && x[6] == y[6] && x[7] == y[7] && x[8] == y[8];
    }
  }

  /** Two audit exports are the same bytes exactly when their rows agree column
      by column. */
  lemma AuditExportIsFaithful(a: seq<AuditRow>, b: seq<AuditRow>)
    ensures Print(AuditCells(a)) == Print(AuditCells(b))
        <==> |a| == |b| && forall i :: 0 <= i < |a| ==> SameColumns(a[i], b[i])
  {
    var ca, cb := AuditCells(a), AuditCells(b);
    if Print(ca) == Print(cb) {
      PrintIsInjective(ca, cb);
      forall i | 0 <= i < |a| ensures SameColumns(a[i], b[i]) {
        assert ca[i] == cb[i];
        SameColumnsExactly(a[i], b[i]);
      }
    }
    if |a| == |b| && forall i :: 0 <= i < |a| ==> SameColumns(a[i], b[i]) {
      forall i | 0 <= i < |a| ensures a[i].Cells() == b[i].Cells() { SameColumnsExactly(a[i], b[i]); }
      assert ca == cb;
    }
  }
}
