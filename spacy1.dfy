/** The redactor the server calls: the collect, sort and splice steps for one
    string, the row-by-row table walk, and the in-memory document walk. Each
    method is proved to produce exactly what the functions of `Documents` say. */
module Spacy1 {
  import opened Spans
  import opened Detection
  import opened Documents

  /** A string is redacted by collecting its spans, sorting them by start,
      descending, and splicing them in that order; anything else is returned
      unchanged. */
  method DeidentifyText(v: Json, d: Detectors) returns (r: Json)
    ensures r == RedactValue(v, d)
  {
    if !v.JString? {
      return v;
    }
    var text := v.s;
    var spans := CollectSpans(text, d);
    spans := SortByStartDesc(spans);
    text := ReplaceSpans(text, spans);
    r := JString(text);
  }

  /** Builds the processed table row by row: list rows cell by cell, string
      cells redacted, everything else appended as it is. */
  method ProcessTableData(t: Json, d: Detectors) returns (r: Json)
    ensures r == RedactTableData(t, d)
  {
    if !t.JList? {
      return t;
    }
    var rows := t.items;
    var processed: seq<Json> := [];
    for i := 0 to |rows|
      invariant |processed| == i
      invariant forall j :: 0 <= j < i ==> processed[j] == RedactRow(rows[j], d)
    {
      var row := rows[i];
      if row.JList? {
        var processedRow := ProcessRow(row.items, d);
        processed := processed + [JList(processedRow)];
      } else {
        processed := processed + [row];
      }
    }
    r := JList(processed);
  }

  /** The inner loop over the cells of one list row. */
  method ProcessRow(cells: seq<Json>, d: Detectors) returns (processedRow: seq<Json>)
    ensures processedRow == RedactCells(cells, d)
  {
    processedRow := [];
    var k := 0;
    while k < |cells|
      invariant k <= |cells|
      invariant processedRow == RedactCells(cells[..k], d)
    {
      assert cells[..k + 1][..k] == cells[..k];
      var processedCell := ProcessCell(cells[k], d);
      processedRow := processedRow + [processedCell];
      k := k + 1;
    }
    assert cells[..|cells|] == cells;
  }

  /** One turn of the cell loop: a string cell is redacted, any other cell is
      appended as it is. */
  method ProcessCell(cell: Json, d: Detectors) returns (r: Json)
    ensures r == RedactValue(cell, d)
  {
    if cell.JString? {
      r := DeidentifyText(cell, d);
    } else {
      r := cell;
    }
  }

  /** The loop over a list of tables: each `data` present is replaced by the
      processed table. */
  method ProcessTables(tables: seq<Table>, d: Detectors) returns (r: seq<Table>)
    ensures r == RedactTables(tables, d)
  {
    r := tables;
    for i := 0 to |r|
      invariant |r| == |tables|
      invariant forall j :: 0 <= j < i ==> r[j] == RedactTable(tables[j], d)
      invariant forall j :: i <= j < |r| ==> r[j] == tables[j]
    {
      var table := r[i];
      if table.data.Some? {
        var data := ProcessTableData(table.data.value, d);
        table := table.(data := Some(data));
      }
      r := r[i := table];
    }
  }

  /** One turn of the page loop: the page's `text` and its tables' `data`,
      when present, are replaced by their processed versions. */
  method ProcessPage(page: Page, d: Detectors) returns (r: Page)
    ensures r == RedactPage(page, d)
  {
    r := page;
    if r.text.Some? {
      var text := DeidentifyText(r.text.value, d);
      r := r.(text := Some(text));
    }
    if r.tables.Some? {
      var tables := ProcessTables(r.tables.value, d);
      r := r.(tables := Some(tables));
    }
  }

  /** The in-memory walk: root `text`, then every page, then the root tables. */
  method ProcessJsonFile(data: Document, d: Detectors) returns (out: Document)
    ensures out == RedactDocument(data, d)
  {
    out := data;
    if out.text.Some? {
      var text := DeidentifyText(out.text.value, d);
      out := out.(text := Some(text));
    }
    if out.pages.Some? {
      var pages := out.pages.value;
      for i := 0 to |pages|
        invariant |pages| == |data.pages.value|
        invariant forall j :: 0 <= j < i ==> pages[j] == RedactPage(data.pages.value[j], d)
        invariant forall j :: i <= j < |pages| ==> pages[j] == data.pages.value[j]
      {
        var page := ProcessPage(pages[i], d);
        pages := pages[i := page];
      }
      assert pages == RedactPages(data.pages.value, d);
      out := out.(pages := Some(pages));
    }
    if out.tables.Some? {
      var tables := ProcessTables(out.tables.value, d);
      out := out.(tables := Some(tables));
    }
  }
}
