/**
 * The CSV import script (`gts/save_to_db.py`): every data line of every
 * export file with exactly eight columns is upserted into the `products`
 * table by its QR code. A new code inserts one record; a known code runs a
 * `setattr` loop whose attribute names are not columns, so the stored record
 * stays as it was.
 */
module CsvImport {
  import opened Common

  /** A stored record: the eleven columns the import script declares. */
  datatype ImportRecord = ImportRecord(
    barcode: string,
    packageBarcode: string,
    palletBarcode: string,
    shipmentNumber: string,
    deliveryNumber: string,
    batchNumber: string,
    productionDate: string,
    endDate: string,
    orderId: string,
    amount: Option<int>,
    isGtsDone: Option<bool>)

  /** The header names given to the eight columns of an export file, in order. */
  const ExpectedColumns: seq<string> := [
    "QR Kod", "Paket / Koli Barkodu", "Palet Barkodu", "Sevk No",
    "\U{0130}rsaliye No", "Parti No", "\U{00DC}retim Tarihi", "Son Kullanma Tarihi"]

  /** The names of the table's columns (as attribute names). */
  const ProductColumns: seq<string> := [
    "barcode", "package_barcode", "pallet_barcode", "shipment_number", "delivery_number",
    "batch_number", "production_date", "end_date", "order_id", "amount", "is_gts_done"]

  /** The amount of a new record: 0.25 L, in centilitres. */
  const NewAmount := 25

  /** One data line under the eight headers: cell `j` is the value of `ExpectedColumns[j]`. */
  type Cells = seq<string>

  /** A file as read: its column count and its data lines. */
  datatype Frame = Frame(width: nat, lines: seq<Cells>)

  /** Every line has one cell per column, as in any data frame. */
  predicate Rectangular(f: Frame) {
    forall j :: 0 <= j < |f.lines| ==> |f.lines[j]| == f.width
  }

  // ---------------------------------------------------------------------
  // Attribute names

  /** `str.lower()` on one character: ASCII capitals and the two Turkish capitals of the headers. */
  function LowerChar(c: char): string {
    if 'A' <= c <= 'Z' then [(c as int + 32) as char]
    else if c == '\U{00DC}' then "\U{00FC}"
    else if c == '\U{0130}' then "i\U{0307}"
    else [c]
  }

  /** `key.lower().replace(' ', '_')`. */
  function AttributeName(key: string): string {
    if |key| == 0 then ""
    else
      var head := if key[0] == ' ' then "_" else LowerChar(key[0]);
      head + AttributeName(key[1..])
  }

  /** Without a dotted capital I after the first character, lowering keeps every other character's width. */
  lemma {:induction false} NameLength(key: string)
    requires forall i :: 0 <= i < |key| ==> key[i] != '\U{0130}'
    ensures |AttributeName(key)| == |key|
  {
    if |key| > 0 {
      assert forall i :: 0 <= i < |key| - 1 ==> key[1..][i] == key[i + 1];
      NameLength(key[1..]);
    }
  }

  /** The length and first character of a name. */
  lemma NameShape(key: string)
    requires |key| > 0 && key[0] != ' '
    requires forall i :: 0 < i < |key| ==> key[i] != '\U{0130}'
    ensures |AttributeName(key)| == |key| - 1 + |LowerChar(key[0])|
    ensures AttributeName(key)[0] == LowerChar(key[0])[0]
  {
    assert forall i :: 0 <= i < |key| - 1 ==> key[1..][i] == key[i + 1];
    NameLength(key[1..]);
  }

  /** A name is no column when every column of its length starts with another letter. */
  lemma NameIsNotColumn(key: string)
    requires |key| > 0 && key[0] != ' '
    requires forall i :: 0 < i < |key| ==> key[i] != '\U{0130}'
    requires forall c :: c in ProductColumns && |c| == |key| - 1 + |LowerChar(key[0])| ==> c[0] != LowerChar(key[0])[0]
    ensures AttributeName(key) !in ProductColumns
  {
    NameShape(key);
  }

  /** No header turns into the name of a column, so the update branch writes no column. */
  lemma AttributeNamesAreNotColumns()
    ensures forall j :: 0 <= j < |ExpectedColumns| ==> AttributeName(ExpectedColumns[j]) !in ProductColumns
  {
    forall j | 0 <= j < 4
      ensures AttributeName(ExpectedColumns[j]) !in ProductColumns
    {
      NameIsNotColumn(ExpectedColumns[j]);
    }
    forall j | 4 <= j < |ExpectedColumns|
      ensures AttributeName(ExpectedColumns[j]) !in ProductColumns
    {
      NameIsNotColumn(ExpectedColumns[j]);
    }
  }

  /**
   * `setattr(record, name, value)` as far as the table sees it: only a column
   * name changes a column. The nine text columns are written out; `amount`
   * and `is_gts_done` take no text cell here and fall through unchanged,
   * which never matters, since no heading's attribute name is a column.
   */
  function SetAttribute(rec: ImportRecord, name: string, value: string): (r: ImportRecord)
    ensures name !in ProductColumns ==> r == rec
  {
    if name == "barcode" then rec.(barcode := value)
    else if name == "package_barcode" then rec.(packageBarcode := value)
    else if name == "pallet_barcode" then rec.(palletBarcode := value)
    else if name == "shipment_number" then rec.(shipmentNumber := value)
    else if name == "delivery_number" then rec.(deliveryNumber := value)
    else if name == "batch_number" then rec.(batchNumber := value)
    else if name == "production_date" then rec.(productionDate := value)
    else if name == "end_date" then rec.(endDate := value)
    else if name == "order_id" then rec.(orderId := value)
    else rec
  }

  // ---------------------------------------------------------------------
  // The upsert

  /** Some record already carries the code. */
  predicate Present(records: seq<ImportRecord>, code: string) {
    exists i :: 0 <= i < |records| && records[i].barcode == code
  }

  /** `barcode` is the primary key. */
  ghost predicate UniqueCodes(records: seq<ImportRecord>) {
    forall i, j :: 0 <= i < j < |records| ==> records[i].barcode != records[j].barcode
  }

  /** The record a new QR code inserts. */
  function NewRecord(cells: Cells): ImportRecord
    requires |cells| == 8
  {
    ImportRecord(cells[0], cells[1], cells[2], cells[3], cells[4], cells[5], cells[6], cells[7],
                 "", Some(NewAmount), Some(false))
  }

  /** The first record carrying the code (`.first()`). */
  function FirstWith(records: seq<ImportRecord>, code: string): (r: Option<nat>)
    ensures r.None? <==> !Present(records, code)
    ensures r.Some? ==> r.value < |records| && records[r.value].barcode == code
  {
    if |records| == 0 then None
    else if records[0].barcode == code then Some(0)
    else
      var rest := FirstWith(records[1..], code);
      assert forall i :: 0 < i < |records| ==> records[i] == records[1..][i - 1];
      match rest
      case None => None
      case Some(i) => Some(i + 1)
  }

  /**
   * `insert_or_update_product` on one line, as the table sees it: a known
   * code leaves the table as it was (the `setattr` loop writes no column, see
   * `InsertOrUpdateProduct`), an unknown one appends its new record.
   */
  function Upsert(records: seq<ImportRecord>, cells: Cells): (r: seq<ImportRecord>)
    requires |cells| == 8
    ensures |r| == |records| + (if Present(records, cells[0]) then 0 else 1)
    ensures records <= r
    ensures |r| > |records| ==> r[|records|] == NewRecord(cells)
    ensures Present(r, cells[0])
  {
    if Present(records, cells[0]) then records
    else
      var r := records + [NewRecord(cells)];
      assert r[|records|].barcode == cells[0];
      r
  }

  /** The primary key stays unique. */
  lemma UpsertKeepsKeys(records: seq<ImportRecord>, cells: Cells)
    requires |cells| == 8 && UniqueCodes(records)
    ensures UniqueCodes(Upsert(records, cells))
  {
  }

  /** Upserting the same line twice is upserting it once. */
  lemma UpsertIdempotent(records: seq<ImportRecord>, cells: Cells)
    requires |cells| == 8
    ensures Upsert(Upsert(records, cells), cells) == Upsert(records, cells)
  {
    var once := Upsert(records, cells);
    if !Present(records, cells[0]) {
      assert once[|records|].barcode == cells[0];
    }
  }

  // ---------------------------------------------------------------------
  // Files

  /** The lines of a file, in order. */
  function ImportLines(records: seq<ImportRecord>, lines: seq<Cells>): seq<ImportRecord>
    requires forall j :: 0 <= j < |lines| ==> |lines[j]| == 8
  {
    if |lines| == 0 then records
    else
      var n := |lines| - 1;
      Upsert(ImportLines(records, lines[..n]), lines[n])
  }

  /** A file: only a non-empty frame of exactly eight columns is read. */
  function ImportFrame(records: seq<ImportRecord>, f: Frame): seq<ImportRecord>
    requires Rectangular(f)
  {
    if |f.lines| > 0 && f.width == 8 then ImportLines(records, f.lines) else records
  }

  /** The files of one run, in the order the directory listing gives them. */
  function ImportFrames(records: seq<ImportRecord>, frames: seq<Frame>): seq<ImportRecord>
    requires forall k :: 0 <= k < |frames| ==> Rectangular(frames[k])
  {
    if |frames| == 0 then records
    else
      var n := |frames| - 1;
      ImportFrame(ImportFrames(records, frames[..n]), frames[n])
  }

  /** A file of the wrong width, or with no data, writes nothing. */
  lemma RejectedFrameWritesNothing(records: seq<ImportRecord>, f: Frame)
    requires Rectangular(f) && (f.width != 8 || |f.lines| == 0)
    ensures ImportFrame(records, f) == records
  {
  }

  /** Importing lines keeps every stored record in place and adds at most one record per line. */
  lemma {:induction false} ImportLinesExtends(records: seq<ImportRecord>, lines: seq<Cells>)
    requires forall j :: 0 <= j < |lines| ==> |lines[j]| == 8
    ensures |records| <= |ImportLines(records, lines)| <= |records| + |lines|
    ensures ImportLines(records, lines)[..|records|] == records
  {
    if |lines| > 0 {
      var n := |lines| - 1;
      assert forall j :: 0 <= j < n ==> lines[..n][j] == lines[j];
      ImportLinesExtends(records, lines[..n]);
      var prev := ImportLines(records, lines[..n]);
      assert ImportLines(records, lines)[..|prev|] == prev;
    }
  }

  /** A code stored before is still stored after. */
  lemma PresentInExtension(prev: seq<ImportRecord>, r: seq<ImportRecord>, code: string)
    requires |prev| <= |r| && r[..|prev|] == prev && Present(prev, code)
    ensures Present(r, code)
  {
    var i :| 0 <= i < |prev| && prev[i].barcode == code;
    assert r[i] == prev[i];
  }

  /** After importing, every code of the lines is stored. */
  lemma {:induction false} ImportLinesCovers(records: seq<ImportRecord>, lines: seq<Cells>)
    requires forall j :: 0 <= j < |lines| ==> |lines[j]| == 8
    ensures forall j :: 0 <= j < |lines| ==> Present(ImportLines(records, lines), lines[j][0])
  {
    if |lines| > 0 {
      var n := |lines| - 1;
      assert forall j :: 0 <= j < n ==> lines[..n][j] == lines[j];
      ImportLinesCovers(records, lines[..n]);
      var prev := ImportLines(records, lines[..n]);
      var r := ImportLines(records, lines);
      assert r[..|prev|] == prev;
      forall j | 0 <= j < |lines|
        ensures Present(r, lines[j][0])
      {
        if j < n {
          PresentInExtension(prev, r, lines[j][0]);
        } else if !Present(prev, lines[n][0]) {
          assert r[|prev|].barcode == lines[n][0];
        }
      }
    }
  }

  /** Every added record is the new record of a line whose code was not stored before. */
  lemma {:induction false} ImportLinesAddsNew(records: seq<ImportRecord>, lines: seq<Cells>)
    requires forall j :: 0 <= j < |lines| ==> |lines[j]| == 8
    ensures var r := ImportLines(records, lines);
      forall i :: |records| <= i < |r| ==>
        !Present(records, r[i].barcode) &&
        r[i].orderId == "" && r[i].amount == Some(NewAmount) && r[i].isGtsDone == Some(false) &&
        exists j :: 0 <= j < |lines| && r[i] == NewRecord(lines[j])
  {
    if |lines| > 0 {
      var n := |lines| - 1;
      assert forall j :: 0 <= j < n ==> lines[..n][j] == lines[j];
      ImportLinesAddsNew(records, lines[..n]);
      ImportLinesExtends(records, lines[..n]);
      var prev := ImportLines(records, lines[..n]);
      var r := ImportLines(records, lines);
      forall i | |records| <= i < |r|
        ensures !Present(records, r[i].barcode)
        ensures exists j :: 0 <= j < |lines| && r[i] == NewRecord(lines[j])
      {
        if i < |prev| {
          assert r[i] == prev[i];
          var j :| 0 <= j < |lines[..n]| && prev[i] == NewRecord(lines[..n][j]);
          assert r[i] == NewRecord(lines[j]);
        } else {
          assert r[i] == NewRecord(lines[n]);
          if Present(records, r[i].barcode) {
            PresentInExtension(records, prev, r[i].barcode);
          }
        }
      }
    }
  }

  /** Lines whose codes are all stored already change nothing. */
  lemma {:induction false} ImportKnownLines(records: seq<ImportRecord>, lines: seq<Cells>)
    requires forall j :: 0 <= j < |lines| ==> |lines[j]| == 8 && Present(records, lines[j][0])
    ensures ImportLines(records, lines) == records
  {
    if |lines| > 0 {
      var n := |lines| - 1;
      assert forall j :: 0 <= j < n ==> lines[..n][j] == lines[j];
      ImportKnownLines(records, lines[..n]);
    }
  }

  /** Re-processing the same lines leaves the table as the first pass left it. */
  lemma ImportLinesIdempotent(records: seq<ImportRecord>, lines: seq<Cells>)
    requires forall j :: 0 <= j < |lines| ==> |lines[j]| == 8
    ensures ImportLines(ImportLines(records, lines), lines) == ImportLines(records, lines)
  {
    ImportLinesCovers(records, lines);
    ImportKnownLines(ImportLines(records, lines), lines);
  }

  /** After any sequence of lines there is at most one record per code. */
  lemma {:induction false} ImportLinesKeepsKeys(records: seq<ImportRecord>, lines: seq<Cells>)
    requires forall j :: 0 <= j < |lines| ==> |lines[j]| == 8
    requires UniqueCodes(records)
    ensures UniqueCodes(ImportLines(records, lines))
  {
    if |lines| > 0 {
      var n := |lines| - 1;
      assert forall j :: 0 <= j < n ==> lines[..n][j] == lines[j];
      ImportLinesKeepsKeys(records, lines[..n]);
      UpsertKeepsKeys(ImportLines(records, lines[..n]), lines[n]);
    }
  }

  lemma {:induction false} ImportFramesKeepsKeys(records: seq<ImportRecord>, frames: seq<Frame>)
    requires forall k :: 0 <= k < |frames| ==> Rectangular(frames[k])
    requires UniqueCodes(records)
    ensures UniqueCodes(ImportFrames(records, frames))
  {
    if |frames| > 0 {
      var n := |frames| - 1;
      assert forall k :: 0 <= k < n ==> frames[..n][k] == frames[k];
      ImportFramesKeepsKeys(records, frames[..n]);
      var prev := ImportFrames(records, frames[..n]);
      if |frames[n].lines| > 0 && frames[n].width == 8 {
        ImportLinesKeepsKeys(prev, frames[n].lines);
      }
    }
  }

  // ---------------------------------------------------------------------
  // The script on the table

  class ImportDb {
    var records: seq<ImportRecord>

    ghost predicate Valid()
      reads this
    {
      UniqueCodes(records)
    }

    constructor (initial: seq<ImportRecord>)
      requires UniqueCodes(initial)
      ensures Valid() && records == initial
    {
      records := initial;
    }
  }

  /** `insert_or_update_product`, committing one line. */
  method InsertOrUpdateProduct(db: ImportDb, cells: Cells)
    requires db.Valid() && |cells| == 8
    modifies db
    ensures db.Valid()
    ensures db.records == Upsert(old(db.records), cells)
  {
    UpsertKeepsKeys(db.records, cells);
    var found := FirstWith(db.records, cells[0]);
    match found
    case Some(i) =>
      // update existing record: `setattr` under each header's attribute name
      AttributeNamesAreNotColumns();
      var rec := db.records[i];
      for j := 0 to 8
        invariant rec == db.records[i]
      {
        rec := SetAttribute(rec, AttributeName(ExpectedColumns[j]), cells[j]);
      }
      db.records := db.records[i := rec];
    case None =>
      db.records := db.records + [NewRecord(cells)];
  }

  /** One file: the width gate, then every line in order. */
  method ImportFile(db: ImportDb, f: Frame)
    requires db.Valid() && Rectangular(f)
    modifies db
    ensures db.Valid()
    ensures db.records == ImportFrame(old(db.records), f)
  {
    if |f.lines| > 0 && f.width == 8 {
      ghost var start := db.records;
      for k := 0 to |f.lines|
        invariant db.Valid()
        invariant db.records == ImportLines(start, f.lines[..k])
      {
        assert f.lines[..k + 1][..k] == f.lines[..k];
        InsertOrUpdateProduct(db, f.lines[k]);
      }
      assert f.lines[..|f.lines|] == f.lines;
    }
  }

  /** The whole run over the export files. */
  method ImportAll(db: ImportDb, frames: seq<Frame>)
    requires db.Valid() && forall k :: 0 <= k < |frames| ==> Rectangular(frames[k])
    modifies db
    ensures db.Valid()
    ensures db.records == ImportFrames(old(db.records), frames)
  {
    ghost var start := db.records;
    for k := 0 to |frames|
      invariant db.Valid()
      invariant db.records == ImportFrames(start, frames[..k])
    {
      assert frames[..k + 1][..k] == frames[..k];
      ImportFile(db, frames[k]);
    }
    assert frames[..|frames|] == frames;
  }
}
