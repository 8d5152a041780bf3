/** The JSON document both redactors walk: a root `text`, a list of pages
    each with an optional `text` and `tables`, and a list of root tables, each
    table with an optional `data` grid. The functions here say what the walk
    produces; the loops that produce it live with each redactor. */
module Documents {
  import opened Detection

  datatype Option<T> = None | Some(value: T)

  /** A JSON value as the walk tells values apart: a string, a list, or any
      other value (number, boolean, null or object), which is never looked
      into and is represented by its serialised text. */
  datatype Json = JString(s: string) | JList(items: seq<Json>) | JOther(raw: string)

  /** A table object: its `data` entry when the key is present, and its other
      entries. */
  datatype Table = Table(data: Option<Json>, others: map<string, Json>)

  /** A page object: its `text` and `tables` entries when present, and the rest. */
  datatype Page = Page(text: Option<Json>, tables: Option<seq<Table>>, others: map<string, Json>)

  /** The root object of the extraction result. */
  datatype Document = Document(text: Option<Json>, pages: Option<seq<Page>>, tables: Option<seq<Table>>, others: map<string, Json>)

  /** The keys the walk looks up are held in their own fields, never among
      the other entries, so each JSON object has exactly one representation. */
  predicate WellFormedTable(t: Table)
  {
    "data" !in t.others
  }

  predicate WellFormedTables(ts: seq<Table>)
  {
    forall i :: 0 <= i < |ts| ==> WellFormedTable(ts[i])
  }

  predicate WellFormedPage(p: Page)
  {
    "text" !in p.others && "tables" !in p.others &&
    (p.tables.Some? ==> WellFormedTables(p.tables.value))
  }

  predicate WellFormedDocument(doc: Document)
  {
    "text" !in doc.others && "pages" !in doc.others && "tables" !in doc.others &&
    (doc.pages.Some? ==> forall i :: 0 <= i < |doc.pages.value| ==> WellFormedPage(doc.pages.value[i])) &&
    (doc.tables.Some? ==> WellFormedTables(doc.tables.value))
  }

  // ---------------------------------------------------------------------
  // What the walk produces

  /** A string is redacted; any other value is returned as it is. */
  function RedactValue(v: Json, d: Detectors): Json
  {
    if v.JString? then JString(Redact(v.s, d)) else v
  }

  /** The cells of a list row, each redacted. */
  function RedactCells(cells: seq<Json>, d: Detectors): (r: seq<Json>)
    ensures |r| == |cells|
    decreases |cells|
  {
    if cells == [] then []
    else RedactCells(cells[..|cells| - 1], d) + [RedactValue(cells[|cells| - 1], d)]
  }

  /** Redacting the cells of a row keeps its length and redacts each cell in
      its own place. */
  lemma {:induction false} RedactCellsAt(cells: seq<Json>, d: Detectors)
    ensures forall k :: 0 <= k < |cells| ==> RedactCells(cells, d)[k] == RedactValue(cells[k], d)
    decreases |cells|
  {
    if cells != [] {
      var init := cells[..|cells| - 1];
      var before := RedactCells(init, d);
      RedactCellsAt(init, d);
      forall k | 0 <= k < |cells|
        ensures RedactCells(cells, d)[k] == RedactValue(cells[k], d)
      {
        if k < |init| {
          assert RedactCells(cells, d)[k] == before[k];
          assert cells[k] == init[k];
        }
      }
    }
  }

  /** A list row has each of its cells redacted; any other row is kept. */
  function RedactRow(row: Json, d: Detectors): Json
  {
    if row.JList? then JList(RedactCells(row.items, d)) else row
  }

  /** A list table has each of its rows redacted; any other value is kept. */
  function RedactTableData(t: Json, d: Detectors): Json
  {
    if t.JList? then JList(seq(|t.items|, i requires 0 <= i < |t.items| => RedactRow(t.items[i], d)))
    else t
  }

  /** A table's `data` is redacted when present. */
  function RedactTable(t: Table, d: Detectors): Table
  {
    if t.data.Some? then t.(data := Some(RedactTableData(t.data.value, d))) else t
  }

  function RedactTables(ts: seq<Table>, d: Detectors): seq<Table>
  {
    seq(|ts|, i requires 0 <= i < |ts| => RedactTable(ts[i], d))
  }

  /** A page's `text` and the `data` of each of its tables are redacted when present. */
  function RedactPage(p: Page, d: Detectors): Page
  {
    Page(if p.text.Some? then Some(RedactValue(p.text.value, d)) else None,
         if p.tables.Some? then Some(RedactTables(p.tables.value, d)) else None,
         p.others)
  }

  function RedactPages(ps: seq<Page>, d: Detectors): seq<Page>
  {
    seq(|ps|, i requires 0 <= i < |ps| => RedactPage(ps[i], d))
  }

  /** The document written out: root text, pages and root tables redacted
      where present, every other entry as it was. */
  function RedactDocument(doc: Document, d: Detectors): Document
  {
    Document(if doc.text.Some? then Some(RedactValue(doc.text.value, d)) else None,
             if doc.pages.Some? then Some(RedactPages(doc.pages.value, d)) else None,
             if doc.tables.Some? then Some(RedactTables(doc.tables.value, d)) else None,
             doc.others)
  }

  // ---------------------------------------------------------------------
  // Properties of the walk

  /** Redacting a table keeps its shape: a non-list comes back unchanged; a
      list keeps its number of rows; a list row keeps its length and has its
      string cells redacted and every other cell unchanged; a non-list row is
      unchanged. */
  lemma TableShape(t: Json, d: Detectors)
    ensures !t.JList? ==> RedactTableData(t, d) == t
    ensures t.JList? ==> RedactTableData(t, d).JList? && |RedactTableData(t, d).items| == |t.items|
    ensures t.JList? ==> forall i :: 0 <= i < |t.items| ==>
              var row, out := t.items[i], RedactTableData(t, d).items[i];
              (!row.JList? ==> out == row) &&
              (row.JList? ==>
                 (out.JList? && |out.items| == |row.items| &&
                  forall k :: 0 <= k < |row.items| ==>
                    out.items[k] == (if row.items[k].JString? then JString(Redact(row.items[k].s, d)) else row.items[k])))
  {
    if t.JList? {
      forall i | 0 <= i < |t.items| && t.items[i].JList? {
        RedactCellsAt(t.items[i].items, d);
      }
    }
  }

  /** A string table cell comes out exactly as the same string would as a
      page text. */
  lemma CellIsText(t: Json, i: nat, k: nat, d: Detectors)
    requires t.JList? && i < |t.items| && t.items[i].JList? && k < |t.items[i].items|
    ensures RedactTableData(t, d).items[i].items[k] == RedactValue(t.items[i].items[k], d)
  {
    RedactCellsAt(t.items[i].items, d);
  }

  /** The walk only touches `text` and table `data` entries that are present:
      every key keeps its presence, every other entry is unchanged, the page
      and table lists keep their lengths, and a page or table without those
      keys comes back as it was. */
  lemma WalkTouchesOnlyPresent(doc: Document, d: Detectors)
    ensures var out := RedactDocument(doc, d);
      out.others == doc.others &&
      out.text.Some? == doc.text.Some? &&
      out.pages.Some? == doc.pages.Some? &&
      out.tables.Some? == doc.tables.Some?
    ensures doc.pages.Some? ==> var ps, qs := doc.pages.value, RedactDocument(doc, d).pages.value;
      |qs| == |ps| &&
      forall i :: 0 <= i < |ps| ==>
        (qs[i].others == ps[i].others && qs[i].text.Some? == ps[i].text.Some? && qs[i].tables.Some? == ps[i].tables.Some? &&
         ((ps[i].text.None? && ps[i].tables.None?) ==> qs[i] == ps[i]))
    ensures doc.tables.Some? ==> var ts, us := doc.tables.value, RedactDocument(doc, d).tables.value;
      |us| == |ts| &&
      forall i :: 0 <= i < |ts| ==>
        (us[i].others == ts[i].others && us[i].data.Some? == ts[i].data.Some? &&
         (ts[i].data.None? ==> us[i] == ts[i]))
  {
  }

  /** The walk only rewrites the entries it looks up, so a document in the
      one-representation form stays in it. */
  lemma WalkKeepsWellFormed(doc: Document, d: Detectors)
    requires WellFormedDocument(doc)
    ensures WellFormedDocument(RedactDocument(doc, d))
  {
    if doc.tables.Some? {
      TablesKeepWellFormed(doc.tables.value, d);
    }
    if doc.pages.Some? {
      var ps := doc.pages.value;
      forall i | 0 <= i < |ps|
        ensures WellFormedPage(RedactPages(ps, d)[i])
      {
        if ps[i].tables.Some? {
          TablesKeepWellFormed(ps[i].tables.value, d);
        }
      }
    }
  }

  lemma TablesKeepWellFormed(ts: seq<Table>, d: Detectors)
    requires WellFormedTables(ts)
    ensures WellFormedTables(RedactTables(ts, d))
  {
  }

  /** A value with nothing to mask comes back exactly as it was: a non-string
      always, and a string with no masked entity and no pattern match. */
  lemma NothingMaskedKeepsValue(v: Json, d: Detectors)
    requires v.JString? ==> (forall e :: e in d.ner(v.s) ==> e.category !in MaskedLabels) && (forall p :: d.finditer(p, v.s) == [])
    ensures RedactValue(v, d) == v
  {
    if v.JString? {
      NothingMaskedKeepsText(v.s, d);
    }
  }
}
