/**
 * The stock refresh script (`gts/update_stocks.py`): first every unit is
 * marked as out of stock in the default warehouse, then each row of the
 * stock listing puts the units of one package back in stock at the warehouse
 * the row names. The listing is read without a header, so cells are addressed
 * by position: cell 1 is the package barcode and cell 5 the warehouse.
 *
 * pandas reads the listing into a rectangular frame as wide as its first
 * line: a shorter line is padded with NaN, and a longer one makes the whole
 * read raise. Whether a row raises therefore depends on the frame's width,
 * not on the row's own number of fields.
 */
module StockRefresh {
  import opened Common
  import opened ProductTable

  /** The warehouse every unit is reset to, `"ENDER"`. */
  const DefaultWarehouse: Option<string> := Some("ENDER")

  /** One line of the listing file, split at `;` into its fields. */
  type Line = seq<string>

  /**
   * Cell `k` of a line in the frame pandas builds: NaN (`None`) for an empty
   * field and for a field past the end of a line shorter than the frame.
   */
  function Cell(line: Line, k: nat): Option<string> {
    if k < |line| && line[k] != "" then Some(line[k]) else None
  }

  /** No line has more fields than `width`. */
  predicate FitsWidth(lines: seq<Line>, width: nat) {
    forall j :: 0 <= j < |lines| ==> |lines[j]| <= width
  }

  /**
   * The number of columns of the frame `pd.read_csv(header=None, sep=';')`
   * builds, which is that of the first line; `None` when the read raises: an
   * empty or absent file, or a line with more fields than the first.
   */
  function FrameWidth(lines: seq<Line>): Option<nat> {
    if |lines| == 0 || !FitsWidth(lines, |lines[0]|) then None else Some(|lines[0]|)
  }

  /** Two units agree on every column except `warehouse` and `in_stock`. */
  predicate SameExceptStock(p: Product, q: Product) {
    p.(warehouse := q.warehouse, inStock := q.inStock) == q
  }

  /** Two tables of the same length whose units agree on every column except `warehouse` and `in_stock`. */
  predicate SameExceptStockAll(a: seq<Product>, b: seq<Product>) {
    |a| == |b| && forall i :: 0 <= i < |a| ==> SameExceptStock(a[i], b[i])
  }

  /** Such tables have the same primary keys and the same packages. */
  lemma SameExceptStockKeepsKeys(a: seq<Product>, b: seq<Product>)
    requires SameExceptStockAll(a, b)
    ensures forall i :: 0 <= i < |a| ==> a[i].barcode == b[i].barcode && a[i].packageBarcode == b[i].packageBarcode
    ensures UniqueBarcodes(a) <==> UniqueBarcodes(b)
  {
    forall i | 0 <= i < |a|
      ensures a[i].barcode == b[i].barcode && a[i].packageBarcode == b[i].packageBarcode
    {
      assert a[i].(warehouse := b[i].warehouse, inStock := b[i].inStock) == b[i];
    }
  }

  lemma SameExceptStockTransitive(a: seq<Product>, b: seq<Product>, c: seq<Product>)
    requires SameExceptStockAll(a, b) && SameExceptStockAll(b, c)
    ensures SameExceptStockAll(a, c)
  {
    forall i | 0 <= i < |a|
      ensures SameExceptStock(a[i], c[i])
    {
      assert a[i].(warehouse := b[i].warehouse, inStock := b[i].inStock) == b[i];
      assert b[i].(warehouse := c[i].warehouse, inStock := c[i].inStock) == c[i];
    }
  }

  // ---------------------------------------------------------------------
  // The reset pass

  function Reset(p: Product): Product {
    p.(warehouse := DefaultWarehouse, inStock := Some(false))
  }

  /** The table after `product.warehouse = "ENDER"; product.in_stock = False` for every unit. */
  function ResetAll(rows: seq<Product>): (r: seq<Product>)
    ensures SameExceptStockAll(rows, r)
    ensures forall i :: 0 <= i < |r| ==> r[i].warehouse == DefaultWarehouse && r[i].inStock == Some(false)
  {
    if |rows| == 0 then []
    else
      var init := rows[..|rows| - 1];
      assert forall i :: 0 <= i < |init| ==> init[i] == rows[i];
      ResetAll(init) + [Reset(rows[|rows| - 1])]
  }

  /** Resetting twice is resetting once. */
  lemma ResetAllIdempotent(rows: seq<Product>)
    ensures ResetAll(ResetAll(rows)) == ResetAll(rows)
  {
    var once := ResetAll(rows);
    var twice := ResetAll(once);
    forall i | 0 <= i < |rows|
      ensures twice[i] == once[i]
    {
      assert once[i].(warehouse := twice[i].warehouse, inStock := twice[i].inStock) == twice[i];
    }
  }

  // ---------------------------------------------------------------------
  // One row of the listing

  function Mark(p: Product, pkg: string, warehouse: Option<string>): Product {
    if p.packageBarcode == pkg then p.(inStock := Some(true), warehouse := warehouse) else p
  }

  /** The table after every unit of package `pkg` is put in stock at `warehouse` (NULL for a NaN cell). */
  function MarkPackage(rows: seq<Product>, pkg: string, warehouse: Option<string>): (r: seq<Product>)
    ensures SameExceptStockAll(rows, r)
    ensures forall i :: 0 <= i < |rows| && rows[i].packageBarcode == pkg ==>
      r[i].inStock == Some(true) && r[i].warehouse == warehouse
    ensures forall i :: 0 <= i < |rows| && rows[i].packageBarcode != pkg ==> r[i] == rows[i]
  {
    if |rows| == 0 then []
    else
      var init := rows[..|rows| - 1];
      assert forall i :: 0 <= i < |init| ==> init[i] == rows[i];
      MarkPackage(init, pkg, warehouse) + [Mark(rows[|rows| - 1], pkg, warehouse)]
  }

  lemma MarkPackagePointwise(rows: seq<Product>, pkg: string, warehouse: Option<string>, t: nat)
    requires t < |rows|
    ensures MarkPackage(rows, pkg, warehouse)[t] == Mark(rows[t], pkg, warehouse)
  {
  }

  /** A package barcode that names no unit changes nothing. */
  lemma MarkAbsentPackage(rows: seq<Product>, pkg: string, warehouse: Option<string>)
    requires |Query(rows, PackageColumn, pkg)| == 0
    ensures MarkPackage(rows, pkg, warehouse) == rows
  {
    QueryEmpty(rows, PackageColumn, pkg);
  }

  /**
   * `insert_or_update_product` on one row of a frame `width` columns wide:
   * `None` when it raises (a frame narrower than two columns, or a matching
   * package in a frame narrower than six), and otherwise the committed table.
   * A NaN package cell is bound as NULL and matches no unit.
   */
  function ApplyLine(rows: seq<Product>, width: nat, line: Line): Option<seq<Product>> {
    if width < 2 then None
    else
      match Cell(line, 1)
      case None => Some(rows)
      case Some(pkg) =>
        if |Query(rows, PackageColumn, pkg)| == 0 then Some(rows)
        else if width < 6 then None
        else Some(MarkPackage(rows, pkg, Cell(line, 5)))
  }

  /** The row raises a `KeyError`, which ends the processing of the file. */
  predicate Aborts(rows: seq<Product>, width: nat, line: Line) {
    ApplyLine(rows, width, line).None?
  }

  /** Whether a row raises depends only on the frame's width, its cells and which packages exist. */
  lemma AbortsDependsOnPackages(a: seq<Product>, b: seq<Product>, width: nat, line: Line)
    requires SameExceptStockAll(a, b)
    ensures Aborts(a, width, line) <==> Aborts(b, width, line)
  {
    SameExceptStockKeepsKeys(a, b);
    if width >= 2 && Cell(line, 1).Some? {
      QueryEmpty(a, PackageColumn, Cell(line, 1).value);
      QueryEmpty(b, PackageColumn, Cell(line, 1).value);
    }
  }

  /** The rows of one frame in order, stopping at the first that raises. */
  function ApplyLines(rows: seq<Product>, width: nat, lines: seq<Line>): seq<Product>
    decreases |lines|
  {
    if |lines| == 0 then rows
    else
      match ApplyLine(rows, width, lines[0])
      case None => rows
      case Some(next) => ApplyLines(next, width, lines[1..])
  }

  /** The whole script: the reset pass, then the listing when pandas can read it. */
  function Refresh(rows: seq<Product>, lines: seq<Line>): seq<Product> {
    var reset := ResetAll(rows);
    match FrameWidth(lines)
    case None => reset
    case Some(width) => ApplyLines(reset, width, lines)
  }

  /** Processing rows writes only `warehouse` and `in_stock`, and creates and deletes nothing. */
  lemma {:induction false} ApplyLinesOnlyStock(rows: seq<Product>, width: nat, lines: seq<Line>)
    ensures SameExceptStockAll(rows, ApplyLines(rows, width, lines))
    decreases |lines|
  {
    if |lines| == 0 {
      assert SameExceptStockAll(rows, rows);
    } else {
      match ApplyLine(rows, width, lines[0])
      case None =>
        assert SameExceptStockAll(rows, rows);
      case Some(next) =>
        assert SameExceptStockAll(rows, next);
        ApplyLinesOnlyStock(next, width, lines[1..]);
        SameExceptStockTransitive(rows, next, ApplyLines(next, width, lines[1..]));
    }
  }

  /** The script writes only `warehouse` and `in_stock`, creates and deletes nothing, and keeps the key. */
  lemma RefreshOnlyStock(rows: seq<Product>, lines: seq<Line>)
    ensures SameExceptStockAll(rows, Refresh(rows, lines))
    ensures UniqueBarcodes(rows) ==> UniqueBarcodes(Refresh(rows, lines))
  {
    if FrameWidth(lines).Some? {
      ApplyLinesOnlyStock(ResetAll(rows), FrameWidth(lines).value, lines);
      SameExceptStockTransitive(rows, ResetAll(rows), Refresh(rows, lines));
    }
    SameExceptStockKeepsKeys(rows, Refresh(rows, lines));
  }

  /** Once a row raises, the rows after it are never read. */
  lemma {:induction false} StopsAtFirstAbort(rows: seq<Product>, width: nat, lines: seq<Line>, k: nat)
    requires k < |lines|
    requires forall j :: 0 <= j < k ==> !Aborts(rows, width, lines[j])
    requires Aborts(rows, width, lines[k])
    ensures ApplyLines(rows, width, lines) == ApplyLines(rows, width, lines[..k])
    decreases k
  {
    if k > 0 {
      var next := ApplyLine(rows, width, lines[0]).value;
      var rest := lines[1..];
      assert SameExceptStockAll(rows, next);
      forall j | 0 <= j < k - 1
        ensures !Aborts(next, width, rest[j])
      {
        AbortsDependsOnPackages(rows, next, width, lines[j + 1]);
      }
      AbortsDependsOnPackages(rows, next, width, lines[k]);
      StopsAtFirstAbort(next, width, rest, k - 1);
      assert lines[..k][0] == lines[0] && lines[..k][1..] == rest[..k - 1];
      assert ApplyLines(rows, width, lines[..k]) == ApplyLines(next, width, rest[..k - 1]);
    }
  }

  // ---------------------------------------------------------------------
  // What a run leaves behind

  /** The row names `pkg` in a frame wide enough to carry a warehouse cell. */
  predicate Names(line: Line, pkg: string, width: nat) {
    width >= 6 && Cell(line, 1) == Some(pkg)
  }

  /** The warehouse cell of the last row naming `pkg`, if any. */
  function LastWarehouse(lines: seq<Line>, pkg: string, width: nat): Option<Option<string>>
    decreases |lines|
  {
    if |lines| == 0 then None
    else
      var later := LastWarehouse(lines[1..], pkg, width);
      if later.Some? then later
      else if Names(lines[0], pkg, width) then Some(Cell(lines[0], 5))
      else None
  }

  /** The last row naming a package decides its warehouse; with no such row there is none. */
  lemma {:induction false} LastWarehouseSpec(lines: seq<Line>, pkg: string, width: nat)
    ensures LastWarehouse(lines, pkg, width).None? <==> forall k :: 0 <= k < |lines| ==> !Names(lines[k], pkg, width)
    ensures LastWarehouse(lines, pkg, width).Some? ==>
      exists k :: 0 <= k < |lines| && Names(lines[k], pkg, width) && Cell(lines[k], 5) == LastWarehouse(lines, pkg, width).value &&
        forall j :: k < j < |lines| ==> !Names(lines[j], pkg, width)
    decreases |lines|
  {
    if |lines| > 0 {
      var rest := lines[1..];
      LastWarehouseSpec(rest, pkg, width);
      assert forall k :: 0 <= k < |rest| ==> rest[k] == lines[k + 1];
      if LastWarehouse(rest, pkg, width).Some? {
        var k :| 0 <= k < |rest| && Names(rest[k], pkg, width) && Cell(rest[k], 5) == LastWarehouse(rest, pkg, width).value &&
          forall j :: k < j < |rest| ==> !Names(rest[j], pkg, width);
        assert lines[k + 1] == rest[k];
        assert forall j :: k + 1 < j < |lines| ==> lines[j] == rest[j - 1];
      } else if Names(lines[0], pkg, width) {
        assert forall j :: 0 < j < |lines| ==> lines[j] == rest[j - 1];
      } else {
        assert forall k :: 0 < k < |lines| ==> lines[k] == rest[k - 1];
      }
    }
  }

  /** The last row naming a package is the one whose warehouse `LastWarehouse` reports. */
  lemma LastNamingLine(lines: seq<Line>, pkg: string, width: nat, k: nat)
    requires k < |lines| && Names(lines[k], pkg, width)
    requires forall j :: k < j < |lines| ==> !Names(lines[j], pkg, width)
    ensures LastWarehouse(lines, pkg, width) == Some(Cell(lines[k], 5))
  {
    LastWarehouseSpec(lines, pkg, width);
    var k' :| 0 <= k' < |lines| && Names(lines[k'], pkg, width) && Cell(lines[k'], 5) == LastWarehouse(lines, pkg, width).value &&
      forall j :: k' < j < |lines| ==> !Names(lines[j], pkg, width);
    assert k' == k;
  }

  /** The last row wins: a package named by the final row ends at that row's warehouse. */
  lemma LastLineWins(lines: seq<Line>, pkg: string, width: nat)
    requires |lines| > 0 && Names(lines[|lines| - 1], pkg, width)
    ensures LastWarehouse(lines, pkg, width) == Some(Cell(lines[|lines| - 1], 5))
  {
    LastNamingLine(lines, pkg, width, |lines| - 1);
  }

  /** The unit after rows with the given last warehouse cell for its package. */
  function Stocked(p: Product, last: Option<Option<string>>): Product {
    match last
    case None => p
    case Some(w) => p.(inStock := Some(true), warehouse := w)
  }

  /**
   * When no row raises, every unit of a package named by some row is in
   * stock at the warehouse of the last such row, and every other unit is as
   * it was.
   */
  lemma {:induction false} ApplyLinesEffect(rows: seq<Product>, width: nat, lines: seq<Line>)
    requires forall j :: 0 <= j < |lines| ==> !Aborts(rows, width, lines[j])
    ensures |ApplyLines(rows, width, lines)| == |rows|
    ensures forall i :: 0 <= i < |rows| ==>
      ApplyLines(rows, width, lines)[i] == Stocked(rows[i], LastWarehouse(lines, rows[i].packageBarcode, width))
    decreases |lines|
  {
    ApplyLinesOnlyStock(rows, width, lines);
    if |lines| > 0 {
      var line := lines[0];
      var next := ApplyLine(rows, width, line).value;
      var rest := lines[1..];
      assert SameExceptStockAll(rows, next);
      SameExceptStockKeepsKeys(rows, next);
      forall j | 0 <= j < |rest|
        ensures !Aborts(next, width, rest[j])
      {
        AbortsDependsOnPackages(rows, next, width, lines[j + 1]);
      }
      ApplyLinesEffect(next, width, rest);
      forall i | 0 <= i < |rows|
        ensures ApplyLines(rows, width, lines)[i] == Stocked(rows[i], LastWarehouse(lines, rows[i].packageBarcode, width))
      {
        var pkg := rows[i].packageBarcode;
        assert ApplyLines(rows, width, lines) == ApplyLines(next, width, rest);
        assert next[i].packageBarcode == pkg;
        if Cell(line, 1).None? {
          assert next == rows && !Names(line, pkg, width);
        } else if |Query(rows, PackageColumn, Cell(line, 1).value)| == 0 {
          QueryEmpty(rows, PackageColumn, Cell(line, 1).value);
          assert next == rows && !Names(line, pkg, width);
        } else {
          assert width >= 6 && next == MarkPackage(rows, Cell(line, 1).value, Cell(line, 5));
          MarkPackagePointwise(rows, Cell(line, 1).value, Cell(line, 5), i);
        }
      }
    }
  }

  /**
   * A run of the script on a readable listing in which no row raises: a unit
   * whose package some row names is in stock at the last such row's
   * warehouse, and every other unit is out of stock at the default warehouse.
   */
  lemma RefreshEffect(rows: seq<Product>, lines: seq<Line>, width: nat, i: nat)
    requires FrameWidth(lines) == Some(width)
    requires forall j :: 0 <= j < |lines| ==> !Aborts(rows, width, lines[j])
    requires i < |rows|
    ensures |Refresh(rows, lines)| == |rows|
    ensures var pkg := rows[i].packageBarcode;
      (forall k :: 0 <= k < |lines| ==> !Names(lines[k], pkg, width)) ==>
        Refresh(rows, lines)[i].warehouse == DefaultWarehouse && Refresh(rows, lines)[i].inStock == Some(false)
    ensures var pkg := rows[i].packageBarcode;
      forall k :: 0 <= k < |lines| && Names(lines[k], pkg, width) && (forall j :: k < j < |lines| ==> !Names(lines[j], pkg, width)) ==>
        Refresh(rows, lines)[i].warehouse == Cell(lines[k], 5) && Refresh(rows, lines)[i].inStock == Some(true)
  {
    var reset := ResetAll(rows);
    ResetKeepsAborts(rows, width, lines);
    ApplyLinesEffect(reset, width, lines);
    var pkg := rows[i].packageBarcode;
    LastWarehouseSpec(lines, pkg, width);
    forall k | 0 <= k < |lines| && Names(lines[k], pkg, width) && (forall j :: k < j < |lines| ==> !Names(lines[j], pkg, width))
      ensures Refresh(rows, lines)[i].warehouse == Cell(lines[k], 5) && Refresh(rows, lines)[i].inStock == Some(true)
    {
      LastNamingLine(lines, pkg, width, k);
    }
  }

  /** A unit whose package no row's package cell holds keeps its row, whether or not some row raises. */
  lemma {:induction false} ApplyLinesKeepsUnnamed(rows: seq<Product>, width: nat, lines: seq<Line>, i: nat)
    requires i < |rows|
    requires forall j :: 0 <= j < |lines| ==> Cell(lines[j], 1) != Some(rows[i].packageBarcode)
    ensures |ApplyLines(rows, width, lines)| == |rows|
    ensures ApplyLines(rows, width, lines)[i] == rows[i]
    decreases |lines|
  {
    ApplyLinesOnlyStock(rows, width, lines);
    if |lines| > 0 {
      var line := lines[0];
      match ApplyLine(rows, width, line)
      case None =>
      case Some(next) =>
        assert next[i] == rows[i] by {
          if Cell(line, 1).Some? && |Query(rows, PackageColumn, Cell(line, 1).value)| != 0 {
            MarkPackagePointwise(rows, Cell(line, 1).value, Cell(line, 5), i);
          }
        }
        assert forall j :: 0 <= j < |lines| - 1 ==> lines[1..][j] == lines[j + 1];
        ApplyLinesKeepsUnnamed(next, width, lines[1..], i);
    }
  }

  /**
   * A unit whose package no row's package cell holds ends out of stock at the
   * default warehouse, with every other column as it was, even when a row
   * raises or the listing cannot be read.
   */
  lemma UnnamedStaysReset(rows: seq<Product>, lines: seq<Line>, i: nat)
    requires i < |rows|
    requires forall j :: 0 <= j < |lines| ==> Cell(lines[j], 1) != Some(rows[i].packageBarcode)
    ensures |Refresh(rows, lines)| == |rows|
    ensures Refresh(rows, lines)[i] == Reset(rows[i])
    ensures Refresh(rows, lines)[i].warehouse == DefaultWarehouse && Refresh(rows, lines)[i].inStock == Some(false)
  {
    var reset := ResetAll(rows);
    assert reset[i] == Reset(rows[i]) by {
      assert rows[i].(warehouse := reset[i].warehouse, inStock := reset[i].inStock) == reset[i];
    }
    if FrameWidth(lines).Some? {
      ApplyLinesKeepsUnnamed(reset, FrameWidth(lines).value, lines, i);
    }
  }

  /** The reset writes no package barcode, so it makes no row raise that did not raise before. */
  lemma ResetKeepsAborts(rows: seq<Product>, width: nat, lines: seq<Line>)
    requires forall j :: 0 <= j < |lines| ==> !Aborts(rows, width, lines[j])
    ensures forall j :: 0 <= j < |lines| ==> !Aborts(ResetAll(rows), width, lines[j])
  {
    forall j | 0 <= j < |lines|
      ensures !Aborts(ResetAll(rows), width, lines[j])
    {
      AbortsDependsOnPackages(rows, ResetAll(rows), width, lines[j]);
    }
  }

  // ---------------------------------------------------------------------
  // Listings that are not rectangular

  /** On a one-unit table, a row naming the unit's package marks it with the row's warehouse cell. */
  lemma SingleUnitRow(q: Product, width: nat, line: Line)
    requires width >= 6 && Cell(line, 1) == Some(q.packageBarcode)
    ensures ApplyLine([q], width, line) == Some([q.(inStock := Some(true), warehouse := Cell(line, 5))])
  {
    assert Query([q], PackageColumn, q.packageBarcode) == [q] by {
      assert [q][..0] == [];
    }
    assert MarkPackage([q], q.packageBarcode, Cell(line, 5)) == [Mark(q, q.packageBarcode, Cell(line, 5))] by {
      assert [q][..0] == [];
    }
  }

  /**
   * A short line is padded with NaN rather than raising: in a listing six
   * columns wide, `x;P1` puts package P1 in stock with a NULL warehouse, and
   * the following line then moves it to W2.
   */
  lemma ShortLinePadded(p: Product, l1: Line, l2: Line, l3: Line)
    requires p.packageBarcode == "P1"
    requires l1 == ["a", "P1", "c", "d", "e", "W1"] && l2 == ["x", "P1"] && l3 == ["a", "P1", "c", "d", "e", "W2"]
    ensures FrameWidth([l1, l2, l3]) == Some(6)
    ensures ApplyLines(ResetAll([p]), 6, [l1, l2]) == [p.(warehouse := None, inStock := Some(true))]
    ensures Refresh([p], [l1, l2, l3]) == [p.(warehouse := Some("W2"), inStock := Some(true))]
  {
    var lines := [l1, l2, l3];
    assert FitsWidth(lines, 6) by {
      assert lines[0] == l1 && lines[1] == l2 && lines[2] == l3;
    }
    var r0 := ResetAll([p]);
    assert r0 == [Reset(p)] by {
      assert [p][..0] == [];
    }
    assert Cell(l1, 1) == Some("P1") && Cell(l2, 1) == Some("P1") && Cell(l3, 1) == Some("P1");
    assert Cell(l1, 5) == Some("W1") && Cell(l2, 5) == None && Cell(l3, 5) == Some("W2");
    var q1 := Reset(p).(inStock := Some(true), warehouse := Some("W1"));
    var q2 := q1.(inStock := Some(true), warehouse := None);
    var q3 := q2.(inStock := Some(true), warehouse := Some("W2"));
    SingleUnitRow(Reset(p), 6, l1);
    SingleUnitRow(q1, 6, l2);
    SingleUnitRow(q2, 6, l3);
    assert lines[1..] == [l2, l3] && [l2, l3][1..] == [l3] && [l1, l2][1..] == [l2];
    assert ApplyLines([q2], 6, [l3]) == [q3] by {
      assert [l3][1..] == [];
    }
    assert ApplyLines([q1], 6, [l2]) == [q2] by {
      assert [l2][1..] == [];
    }
    assert ApplyLines(r0, 6, lines) == [q3];
    assert q2 == p.(warehouse := None, inStock := Some(true));
    assert q3 == p.(warehouse := Some("W2"), inStock := Some(true));
  }

  /** A line longer than the first makes the read raise, so only the reset takes effect. */
  lemma LongerLineRejectsListing(rows: seq<Product>, l1: Line, l2: Line)
    requires |l2| > |l1|
    ensures FrameWidth([l1, l2]).None?
    ensures Refresh(rows, [l1, l2]) == ResetAll(rows)
  {
    assert !FitsWidth([l1, l2], |l1|) by {
      assert [l1, l2][1] == l2;
    }
  }

  // ---------------------------------------------------------------------
  // The script on the table

  /** The loop that sends every unit to the default warehouse, out of stock. */
  method ResetStock(db: ProductDb)
    requires db.Valid()
    modifies db
    ensures db.Valid()
    ensures db.rows == ResetAll(old(db.rows))
  {
    ghost var rows := db.rows;
    var i := 0;
    while i < |db.rows|
      invariant 0 <= i <= |rows| && |db.rows| == |rows|
      invariant forall t :: 0 <= t < i ==> db.rows[t] == Reset(rows[t])
      invariant forall t :: i <= t < |rows| ==> db.rows[t] == rows[t]
    {
      db.rows := db.rows[i := db.rows[i].(warehouse := DefaultWarehouse, inStock := Some(false))];
      i := i + 1;
    }
    assert db.rows == ResetAll(rows);
    SameExceptStockKeepsKeys(rows, db.rows);
  }

  /**
   * `insert_or_update_product` on one row of a frame `width` columns wide:
   * `completed` is false when the row raises, and then nothing of it is
   * committed.
   */
  method InsertOrUpdateProduct(db: ProductDb, width: nat, line: Line) returns (completed: bool)
    requires db.Valid()
    modifies db
    ensures db.Valid()
    ensures completed <==> ApplyLine(old(db.rows), width, line).Some?
    ensures completed ==> db.rows == ApplyLine(old(db.rows), width, line).value
    ensures !completed ==> db.rows == old(db.rows)
  {
    if width < 2 {
      return false;
    }
    var cell := Cell(line, 1);
    if cell.None? {
      // the NaN is bound as NULL, which no package barcode equals
      return true;
    }
    var pkg := cell.value;
    var matching := Query(db.rows, PackageColumn, pkg);
    if |matching| == 0 {
      return true;
    }
    if width < 6 {
      // the write to the first unit's `in_stock` is never committed
      return false;
    }
    var warehouse := Cell(line, 5);
    ghost var rows := db.rows;
    var i := 0;
    while i < |db.rows|
      invariant 0 <= i <= |rows| && |db.rows| == |rows|
      invariant forall t :: 0 <= t < i ==> db.rows[t] == Mark(rows[t], pkg, warehouse)
      invariant forall t :: i <= t < |rows| ==> db.rows[t] == rows[t]
    {
      if db.rows[i].packageBarcode == pkg {
        db.rows := db.rows[i := db.rows[i].(inStock := Some(true), warehouse := warehouse)];
      }
      i := i + 1;
    }
    forall t | 0 <= t < |rows|
      ensures db.rows[t] == MarkPackage(rows, pkg, warehouse)[t]
    {
      MarkPackagePointwise(rows, pkg, warehouse, t);
    }
    assert db.rows == MarkPackage(rows, pkg, warehouse);
    SameExceptStockKeepsKeys(rows, db.rows);
    completed := true;
  }

  /** The whole script on the lines of the listing file (an absent or empty file has none). */
  method RefreshStock(db: ProductDb, lines: seq<Line>)
    requires db.Valid()
    modifies db
    ensures db.Valid()
    ensures db.rows == Refresh(old(db.rows), lines)
  {
    ghost var target := Refresh(db.rows, lines);
    ResetStock(db);
    var frame := FrameWidth(lines);
    if frame.None? {
      // the read raises and the handler skips the file
      return;
    }
    var width := frame.value;
    var i := 0;
    var stopped := false;
    while i < |lines| && !stopped
      decreases |lines| - i, if stopped then 0 else 1
      invariant 0 <= i <= |lines| && db.Valid()
      invariant !stopped ==> ApplyLines(db.rows, width, lines[i..]) == target
      invariant stopped ==> db.rows == target
    {
      assert lines[i..][0] == lines[i] && lines[i..][1..] == lines[i + 1..];
      var completed := InsertOrUpdateProduct(db, width, lines[i]);
      if !completed {
        // the `KeyError` ends the file
        stopped := true;
      } else {
        i := i + 1;
      }
    }
    if !stopped {
      assert lines[i..] == [];
    }
  }
}
