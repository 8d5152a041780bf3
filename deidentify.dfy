/** The redactor that also reports what it found: the two loops that fill
    the inventory of one string, the redaction of a string together with its
    inventory, the table walk with its key-by-key merges, and the in-memory
    document walk ending with the removal of duplicates. Each method is
    proved to produce what the functions of `Documents` and `Inventory` say. */
module Deidentify {
  import opened Spans
  import opened Detection
  import opened Documents
  import opened Inventory

  // ---------------------------------------------------------------------
  // `extract_phi_info`

  /** `{}` for a non-string; otherwise the entity loop and then the pattern
      loop, both over a fresh dictionary with all seven keys. */
  method ExtractPhiInfo(v: Json, d: Detectors) returns (phi: Option<Phi>)
    ensures phi == ValuePhi(v, Extract(d))
  {
    if !v.JString? {
      return None;
    }
    var text := v.s;
    var info := RecordEntities(EmptyPhi, text, d.ner(text));
    info := RecordPatterns(info, d, text, CustomPatterns);
    phi := Some(info);
  }

  /** The loop over the recogniser's entities. */
  method RecordEntities(acc: Phi, text: string, ents: seq<Entity>) returns (info: Phi)
    ensures info == AddEntities(acc, text, ents)
  {
    info := acc;
    var i := 0;
    while i < |ents|
      invariant i <= |ents|
      invariant info == AddEntities(acc, text, ents[..i])
    {
      var e := ents[i];
      assert ents[..i + 1][..i] == ents[..i];
      if e.category == "PERSON" {
        var cleanName := CleanName(EntityText(text, e));
        if cleanName != [] && cleanName !in info.names {
          info := info.(names := info.names + [cleanName]);
        }
      } else if e.category == "GPE" {
        info := info.(addresses := info.addresses + [EntityText(text, e)]);
      } else if e.category == "DATE" {
        info := info.(dates := info.dates + [EntityText(text, e)]);
      }
      i := i + 1;
    }
    assert ents[..|ents|] == ents;
  }

  /** The loop over the pattern table. */
  method RecordPatterns(acc: Phi, d: Detectors, text: string, ps: seq<Pattern>) returns (info: Phi)
    ensures info == AddPatterns(acc, d, text, ps)
  {
    info := acc;
    var j := 0;
    while j < |ps|
      invariant j <= |ps|
      invariant info == AddPatterns(acc, d, text, ps[..j])
    {
      var p := ps[j];
      assert ps[..j + 1][..j] == ps[..j];
      info := RecordMatches(info, text, p, d.finditer(p, text));
      j := j + 1;
    }
    assert ps[..|ps|] == ps;
  }

  /** The loop over one pattern's matches. */
  method RecordMatches(acc: Phi, text: string, p: Pattern, ms: seq<Match>) returns (info: Phi)
    ensures info == AddMatches(acc, text, p, ms)
  {
    info := acc;
    var k := 0;
    while k < |ms|
      invariant k <= |ms|
      invariant info == AddMatches(acc, text, p, ms[..k])
    {
      var value := MatchText(text, ms[k]);
      assert ms[..k + 1][..k] == ms[..k];
      info := RecordMatch(info, p, value);
      k := k + 1;
    }
    assert ms[..|ms|] == ms;
  }

  /** The label test for one match: PHONE, EMAIL, SSN and MRN each to their
      own list, DOB and DATE to the dates, the other labels nowhere. */
  method RecordMatch(acc: Phi, p: Pattern, value: string) returns (info: Phi)
    ensures info == AddMatch(acc, p, value)
  {
    info := acc;
    if p == Phone {
      info := info.(phones := info.phones + [value]);
    } else if p == Email {
      info := info.(emails := info.emails + [value]);
    } else if p == Ssn {
      info := info.(ssns := info.ssns + [value]);
    } else if p == Mrn {
      info := info.(mrns := info.mrns + [value]);
    } else if p == Dob || p == Date {
      info := info.(dates := info.dates + [value]);
    }
  }

  // ---------------------------------------------------------------------
  // `deidentify_text`

  /** A non-string comes back as it is with `{}`; a string comes back
      redacted, with its inventory. */
  method DeidentifyText(v: Json, d: Detectors) returns (r: Json, phi: Option<Phi>)
    ensures r == RedactValue(v, d)
    ensures phi == ValuePhi(v, Extract(d))
  {
    if !v.JString? {
      return v, None;
    }
    var text := v.s;
    phi := ExtractPhiInfo(v, d);
    var spans := CollectSpans(text, d);
    spans := SortByStartDesc(spans);
    text := ReplaceSpans(text, spans);
    r := JString(text);
  }

  // ---------------------------------------------------------------------
  // Merging and removing duplicates

  /** The merge loop: each key's list, in key order, is extended by the other
      inventory's list for that key, an absent key counting as empty. */
  method MergeInto(acc: Phi, phi: Option<Phi>) returns (r: Phi)
    ensures r == Merge(acc, phi)
  {
    r := acc;
    var i := 0;
    while i < |AllBuckets|
      invariant i <= |AllBuckets|
      invariant forall b :: Get(r, b) == Get(acc, b) + (if Position(b) < i then Lookup(phi, b) else [])
    {
      var key := AllBuckets[i];
      PositionOf(i);
      r := Put(r, key, Get(r, key) + Lookup(phi, key));
      i := i + 1;
    }
    SameLists(r, Merge(acc, phi));
  }

  /** `all_phi_info[key] = list(set(all_phi_info[key]))` for every key: each
      list loses its duplicates and keeps exactly its values. */
  method RemoveDuplicates(acc: Phi) returns (r: Phi)
    ensures forall b :: NoDup(Get(r, b))
    ensures forall b, x :: x in Get(r, b) <==> x in Get(acc, b)
  {
    r := acc;
    var i := 0;
    while i < |AllBuckets|
      invariant i <= |AllBuckets|
      invariant forall b :: Get(r, b) == (if Position(b) < i then Distinct(Get(acc, b)) else Get(acc, b))
    {
      var key := AllBuckets[i];
      PositionOf(i);
      r := Put(r, key, Distinct(Get(r, key)));
      i := i + 1;
    }
  }

  // ---------------------------------------------------------------------
  // `process_table_data`

  /** A non-list comes back as it is with `{}`; a list is rebuilt row by row,
      and the inventories of its string cells are merged in row-major order
      into a fresh dictionary. */
  method ProcessTableData(t: Json, d: Detectors) returns (r: Json, phi: Option<Phi>)
    ensures r == RedactTableData(t, d)
    ensures phi == TablePhi(t, Extract(d))
  {
    if !t.JList? {
      return t, None;
    }
    var rows := t.items;
    var processed: seq<Json> := [];
    var all := EmptyPhi;
    var i := 0;
    while i < |rows|
      invariant i <= |rows|
      invariant |processed| == i
      invariant forall j :: 0 <= j < i ==> processed[j] == RedactRow(rows[j], d)
      invariant all == RowsPhi(EmptyPhi, rows[..i], Extract(d))
    {
      var row := rows[i];
      assert rows[..i + 1][..i] == rows[..i];
      if row.JList? {
        var processedRow;
        processedRow, all := ProcessRow(row.items, d, all);
        assert JList(processedRow) == RedactRow(row, d);
        processed := processed + [JList(processedRow)];
      } else {
        processed := processed + [row];
      }
      i := i + 1;
    }
    assert rows[..|rows|] == rows;
    r := JList(processed);
    phi := Some(all);
  }

  /** The loop over the cells of one list row. */
  method ProcessRow(cells: seq<Json>, d: Detectors, acc: Phi) returns (processedRow: seq<Json>, all: Phi)
    ensures processedRow == RedactCells(cells, d)
    ensures all == CellsPhi(acc, cells, Extract(d))
  {
    processedRow := [];
    all := acc;
    var k := 0;
    while k < |cells|
      invariant k <= |cells|
      invariant processedRow == RedactCells(cells[..k], d)
      invariant all == CellsPhi(acc, cells[..k], Extract(d))
    {
      assert cells[..k + 1][..k] == cells[..k];
      var processedCell;
      processedCell, all := ProcessCell(cells[k], d, all);
      processedRow := processedRow + [processedCell];
      k := k + 1;
    }
    assert cells[..|cells|] == cells;
  }

  /** One turn of the cell loop: a string cell is redacted and its inventory
      merged; any other cell is appended as it is and merges nothing. */
  method ProcessCell(cell: Json, d: Detectors, acc: Phi) returns (r: Json, all: Phi)
    ensures r == RedactValue(cell, d)
    ensures all == CellsPhi(acc, [cell], Extract(d))
  {
    assert [cell][..0] == [];
    if cell.JString? {
      var info;
      r, info := DeidentifyText(cell, d);
      all := MergeInto(acc, info);
    } else {
      r, all := cell, acc;
    }
  }

  // ---------------------------------------------------------------------
  // `process_json_file`, between reading the input and writing the output

  /** The loop over a list of tables: each `data` present is replaced by the
      processed table and its inventory merged. */
  method ProcessTables(tables: seq<Table>, d: Detectors, acc: Phi) returns (r: seq<Table>, all: Phi)
    ensures r == RedactTables(tables, d)
    ensures all == TablesPhi(acc, tables, Extract(d))
  {
    r := tables;
    all := acc;
    var i := 0;
    while i < |r|
      invariant i <= |r| == |tables|
      invariant forall j :: 0 <= j < i ==> r[j] == RedactTable(tables[j], d)
      invariant forall j :: i <= j < |r| ==> r[j] == tables[j]
      invariant all == TablesPhi(acc, tables[..i], Extract(d))
    {
      assert tables[..i + 1][..i] == tables[..i];
      var table := r[i];
      if table.data.Some? {
        var data, info := ProcessTableData(table.data.value, d);
        table := table.(data := Some(data));
        all := MergeInto(all, info);
      }
      r := r[i := table];
      i := i + 1;
    }
    assert tables[..|tables|] == tables;
  }

  /** One turn of the page loop: the page's `text` and its tables' `data`,
      when present, are processed and their inventories merged. */
  method ProcessPage(page: Page, d: Detectors, acc: Phi) returns (r: Page, all: Phi)
    ensures r == RedactPage(page, d)
    ensures all == PagePhi(acc, page, Extract(d))
  {
    r, all := page, acc;
    if r.text.Some? {
      var text, info := DeidentifyText(r.text.value, d);
      r := r.(text := Some(text));
      all := MergeInto(all, info);
    }
    if r.tables.Some? {
      var tables;
      tables, all := ProcessTables(r.tables.value, d, all);
      r := r.(tables := Some(tables));
    }
  }

  /** The pages loop. */
  method ProcessPages(pages: seq<Page>, d: Detectors, acc: Phi) returns (r: seq<Page>, all: Phi)
    ensures r == RedactPages(pages, d)
    ensures all == PagesPhi(acc, pages, Extract(d))
  {
    r, all := pages, acc;
    var i := 0;
    while i < |r|
      invariant i <= |r| == |pages|
      invariant forall j :: 0 <= j < i ==> r[j] == RedactPage(pages[j], d)
      invariant forall j :: i <= j < |r| ==> r[j] == pages[j]
      invariant all == PagesPhi(acc, pages[..i], Extract(d))
    {
      assert pages[..i + 1][..i] == pages[..i];
      var page;
      page, all := ProcessPage(r[i], d, all);
      r := r[i := page];
      i := i + 1;
    }
    assert pages[..|pages|] == pages;
  }

  /** The document walk: the document written out is the redacted one, and
      the inventory returned lists, under each key and without duplicates,
      exactly the values that the inventory of some string the walk redacts
      lists under that key. */
  method ProcessJsonFile(data: Document, d: Detectors) returns (out: Document, phi: Phi)
    ensures out == RedactDocument(data, d)
    ensures forall b :: NoDup(Get(phi, b))
    ensures forall b, x :: x in Get(phi, b) <==> exists t :: t in DocStrings(data) && x in Get(TextPhi(t, d), b)
  {
    out := data;
    var all := EmptyPhi;
    if out.text.Some? {
      var text, info := DeidentifyText(out.text.value, d);
      out := out.(text := Some(text));
      all := MergeInto(all, info);
    }
    if out.pages.Some? {
      var pages;
      pages, all := ProcessPages(out.pages.value, d, all);
      out := out.(pages := Some(pages));
    }
    if out.tables.Some? {
      var tables;
      tables, all := ProcessTables(out.tables.value, d, all);
      out := out.(tables := Some(tables));
    }
    assert all == DocPhi(data, Extract(d));
    phi := RemoveDuplicates(all);
    forall b
      ensures forall x :: x in Get(all, b) <==> exists t :: t in DocStrings(data) && x in Get(TextPhi(t, d), b)
    {
      DocMembers(data, Extract(d), b);
    }
  }
}
