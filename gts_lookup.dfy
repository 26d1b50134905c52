/**
 * Barcode resolution for the GTS endpoints (`/api/get_gts_status`,
 * `/api/get_product_details`, `/api/update_product`): a scanned code names a
 * single unit when some unit carries it as its barcode, and otherwise every
 * unit of the package with that package barcode.
 */
module GtsLookup {
  import opened Common
  import opened ProductTable

  /** `'... barkoduna sahip ürün bulunamadı.'`: nothing carries the code. */
  datatype LookupError = NoSuchBarcode(code: string)

  /** The column a code resolves on: the unit barcode wins whenever some unit carries it. */
  function ResolveColumn(rows: seq<Product>, code: string): Column {
    if |Query(rows, BarcodeColumn, code)| > 0 then BarcodeColumn else PackageColumn
  }

  /** The units a code resolves to, in table order. */
  function Resolved(rows: seq<Product>, code: string): seq<Product> {
    Query(rows, ResolveColumn(rows, code), code)
  }

  /** A code that is some unit's barcode names that unit alone, even if it is also a package barcode. */
  lemma ResolvesUnitFirst(rows: seq<Product>, i: nat)
    requires UniqueBarcodes(rows) && i < |rows|
    ensures ResolveColumn(rows, rows[i].barcode) == BarcodeColumn
    ensures Resolved(rows, rows[i].barcode) == [rows[i]]
  {
    QueryByKey(rows, i);
  }

  /** Otherwise the code names every unit of the package, in table order. */
  lemma ResolvesPackageOtherwise(rows: seq<Product>, code: string)
    requires forall i :: 0 <= i < |rows| ==> rows[i].barcode != code
    ensures ResolveColumn(rows, code) == PackageColumn
    ensures Resolved(rows, code) == Query(rows, PackageColumn, code)
  {
    QueryEmpty(rows, BarcodeColumn, code);
  }

  /** A code resolves to nothing exactly when it is neither a barcode nor a package barcode. */
  lemma NothingResolves(rows: seq<Product>, code: string)
    ensures |Resolved(rows, code)| == 0 <==>
      forall i :: 0 <= i < |rows| ==> rows[i].barcode != code && rows[i].packageBarcode != code
  {
    QueryEmpty(rows, BarcodeColumn, code);
    QueryEmpty(rows, PackageColumn, code);
  }

  // ---------------------------------------------------------------------
  // Status

  /** The position of the first unit whose flag is not truthy. */
  function FirstFalsy(units: seq<Product>): (r: nat)
    requires !AllDone(units)
    ensures r < |units| && !Truthy(units[r].isGtsDone)
    ensures forall j :: 0 <= j < r ==> Truthy(units[j].isGtsDone)
  {
    if !Truthy(units[0].isGtsDone) then 0
    else
      assert !AllDone(units[1..]) by {
        var k :| 0 <= k < |units| && !Truthy(units[k].isGtsDone);
        assert units[1..][k - 1] == units[k];
      }
      1 + FirstFalsy(units[1..])
  }

  /**
   * A package's status: True when every unit's flag is truthy, and otherwise
   * the first falsy flag itself (NULL or False), as Python's `and` yields it.
   */
  function PackageFlag(units: seq<Product>): Option<bool> {
    if AllDone(units) then Some(true) else units[FirstFalsy(units)].isGtsDone
  }

  /** A package's status is truthy exactly when every unit's GTS is done. */
  lemma PackageFlagIsConjunction(units: seq<Product>)
    ensures Truthy(PackageFlag(units)) <==> AllDone(units)
  {
  }

  /** One more step of `retVal = retVal and p.is_gts_done`. */
  lemma PackageFlagSnoc(units: seq<Product>, p: Product)
    ensures PackageFlag(units + [p]) ==
      if Truthy(PackageFlag(units)) then p.isGtsDone else PackageFlag(units)
  {
    var s := units + [p];
    assert forall j :: 0 <= j < |units| ==> s[j] == units[j];
    if AllDone(units) {
      if !Truthy(p.isGtsDone) {
        assert s[|units|] == p;
        assert !AllDone(s);
        var f := FirstFalsy(s);
        assert f == |units|;
      }
    } else {
      var f, g := FirstFalsy(units), FirstFalsy(s);
      assert !Truthy(s[f].isGtsDone);
      assert g == f;
    }
  }

  /** What `get_gts_status` answers for a code. */
  function StatusOf(rows: seq<Product>, code: string): Result<Option<bool>, LookupError> {
    var units := Query(rows, BarcodeColumn, code);
    if |units| > 0 then Ok(units[0].isGtsDone)
    else
      var members := Query(rows, PackageColumn, code);
      if |members| == 0 then Err(NoSuchBarcode(code)) else Ok(PackageFlag(members))
  }

  /** `get_gts_status`: the unit's own flag, or the `and` of the package's flags. */
  method GtsStatus(rows: seq<Product>, code: string) returns (r: Result<Option<bool>, LookupError>)
    requires UniqueBarcodes(rows)
    ensures r == StatusOf(rows, code)
    ensures r.Err? <==> |Resolved(rows, code)| == 0
    ensures r.Ok? ==> (Truthy(r.value) <==> AllDone(Resolved(rows, code)))
  {
    var units := Query(rows, BarcodeColumn, code);
    if |units| > 0 {
      assert Resolved(rows, code) == units;
      QueryEmpty(rows, BarcodeColumn, code);
      var i :| 0 <= i < |rows| && rows[i].barcode == code;
      QueryByKey(rows, i);
      return Ok(units[0].isGtsDone);
    }
    units := Query(rows, PackageColumn, code);
    if |units| == 0 {
      return Err(NoSuchBarcode(code));
    }
    var retVal := Some(true);
    for i := 0 to |units|
      invariant retVal == PackageFlag(units[..i])
    {
      assert units[..i + 1] == units[..i] + [units[i]];
      PackageFlagSnoc(units[..i], units[i]);
      retVal := if Truthy(retVal) then units[i].isGtsDone else retVal;
    }
    assert units[..|units|] == units;
    PackageFlagIsConjunction(units);
    r := Ok(retVal);
  }

  // ---------------------------------------------------------------------
  // Details

  /** `get_product_details`: every column of every resolved unit. */
  function ProductDetails(rows: seq<Product>, code: string): (r: Result<seq<Product>, LookupError>)
    ensures r.Err? <==> forall i :: 0 <= i < |rows| ==> rows[i].barcode != code && rows[i].packageBarcode != code
    ensures r.Ok? ==> r.value == Resolved(rows, code)
  {
    NothingResolves(rows, code);
    var found := Resolved(rows, code);
    if |found| > 0 then Ok(found) else Err(NoSuchBarcode(code))
  }

  // ---------------------------------------------------------------------
  // Update

  /** The answer of `update_product`; `Failed` is the rolled-back 500 response. */
  datatype UpdateResponse =
    | Updated(count: nat, searchType: Column)
    | NoMatch(code: string, searchType: Column)
    | Failed

  /** One unit after `product.order_id = order_id; product.is_gts_done = is_gts_done` when it is selected. */
  function Write(p: Product, col: Column, code: string, orderId: string, flag: Option<bool>): Product {
    if ColumnValue(p, col) == code then p.(orderId := orderId, isGtsDone := flag) else p
  }

  /** The table after writing every unit selected by `col == code`. */
  function Assign(rows: seq<Product>, col: Column, code: string, orderId: string, flag: Option<bool>): (r: seq<Product>)
    ensures |r| == |rows|
    ensures forall i :: 0 <= i < |rows| && ColumnValue(rows[i], col) == code ==>
      r[i].orderId == orderId && r[i].isGtsDone == flag
    ensures forall i :: 0 <= i < |rows| && ColumnValue(rows[i], col) != code ==> r[i] == rows[i]
    ensures forall i :: 0 <= i < |rows| ==>
      r[i].(orderId := rows[i].orderId, isGtsDone := rows[i].isGtsDone) == rows[i]
  {
    if |rows| == 0 then []
    else
      var init := rows[..|rows| - 1];
      var r' := Assign(init, col, code, orderId, flag);
      assert forall i :: 0 <= i < |init| ==> init[i] == rows[i];
      r' + [Write(rows[|rows| - 1], col, code, orderId, flag)]
  }

  lemma AssignPointwise(rows: seq<Product>, col: Column, code: string, orderId: string, flag: Option<bool>, t: nat)
    requires t < |rows|
    ensures Assign(rows, col, code, orderId, flag)[t] == Write(rows[t], col, code, orderId, flag)
  {
  }

  /** Writing the two GTS columns keeps the primary key. */
  lemma AssignKeepsKeys(rows: seq<Product>, col: Column, code: string, orderId: string, flag: Option<bool>)
    requires UniqueBarcodes(rows)
    ensures UniqueBarcodes(Assign(rows, col, code, orderId, flag))
  {
    var r := Assign(rows, col, code, orderId, flag);
    assert forall i :: 0 <= i < |rows| ==> r[i].barcode == rows[i].barcode;
  }

  lemma AssignKeepsColumns(rows: seq<Product>, col: Column, code: string, orderId: string, flag: Option<bool>)
    ensures var r := Assign(rows, col, code, orderId, flag);
      forall i :: 0 <= i < |rows| ==>
        r[i].barcode == rows[i].barcode && r[i].packageBarcode == rows[i].packageBarcode
  {
    var r := Assign(rows, col, code, orderId, flag);
    forall i | 0 <= i < |rows|
      ensures r[i].barcode == rows[i].barcode && r[i].packageBarcode == rows[i].packageBarcode
    {
      assert r[i].(orderId := rows[i].orderId, isGtsDone := rows[i].isGtsDone) == rows[i];
    }
  }

  /** Updating one unit by its barcode: its status is the flag written. */
  lemma StatusAfterUnitUpdate(rows: seq<Product>, i: nat, orderId: string, flag: Option<bool>)
    requires UniqueBarcodes(rows) && i < |rows|
    ensures StatusOf(Assign(rows, BarcodeColumn, rows[i].barcode, orderId, flag), rows[i].barcode) == Ok(flag)
  {
    var code := rows[i].barcode;
    var r := Assign(rows, BarcodeColumn, code, orderId, flag);
    AssignKeepsColumns(rows, BarcodeColumn, code, orderId, flag);
    AssignKeepsKeys(rows, BarcodeColumn, code, orderId, flag);
    QueryByKey(r, i);
  }

  /** A package whose units all carry the same flag has that flag as its status. */
  lemma UniformPackageFlag(units: seq<Product>, flag: Option<bool>)
    requires |units| > 0 && forall j :: 0 <= j < |units| ==> units[j].isGtsDone == flag
    ensures PackageFlag(units) == flag
  {
    if !Truthy(flag) {
      assert !Truthy(units[0].isGtsDone);
      assert FirstFalsy(units) == 0;
    }
  }

  /** After a package update, every unit the package query finds carries the flag written. */
  lemma AssignedMembersCarryFlag(rows: seq<Product>, code: string, orderId: string, flag: Option<bool>)
    ensures var members := Query(Assign(rows, PackageColumn, code, orderId, flag), PackageColumn, code);
      forall j :: 0 <= j < |members| ==> members[j].isGtsDone == flag
  {
    var r := Assign(rows, PackageColumn, code, orderId, flag);
    AssignKeepsColumns(rows, PackageColumn, code, orderId, flag);
    var members := Query(r, PackageColumn, code);
    forall j | 0 <= j < |members|
      ensures members[j].isGtsDone == flag
    {
      assert members[j] in r;
      var t :| 0 <= t < |r| && r[t] == members[j];
    }
  }

  /** Updating a whole package: every member now carries the flag, so the package status is that flag. */
  lemma StatusAfterPackageUpdate(rows: seq<Product>, code: string, orderId: string, flag: Option<bool>)
    requires forall i :: 0 <= i < |rows| ==> rows[i].barcode != code
    requires exists i :: 0 <= i < |rows| && rows[i].packageBarcode == code
    ensures StatusOf(Assign(rows, PackageColumn, code, orderId, flag), code) == Ok(flag)
  {
    var r := Assign(rows, PackageColumn, code, orderId, flag);
    AssignKeepsColumns(rows, PackageColumn, code, orderId, flag);
    QueryEmpty(r, BarcodeColumn, code);
    QueryEmpty(r, PackageColumn, code);
    var i :| 0 <= i < |rows| && rows[i].packageBarcode == code;
    assert r[i].packageBarcode == code;
    AssignedMembersCarryFlag(rows, code, orderId, flag);
    UniformPackageFlag(Query(r, PackageColumn, code), flag);
  }

  /** After a successful update, the status lookup of the same code reports the flag just written. */
  lemma StatusAfterUpdate(rows: seq<Product>, code: string, orderId: string, flag: Option<bool>)
    requires UniqueBarcodes(rows)
    requires |Resolved(rows, code)| > 0
    ensures StatusOf(Assign(rows, ResolveColumn(rows, code), code, orderId, flag), code) == Ok(flag)
  {
    QueryEmpty(rows, BarcodeColumn, code);
    if ResolveColumn(rows, code) == BarcodeColumn {
      var i :| 0 <= i < |rows| && rows[i].barcode == code;
      StatusAfterUnitUpdate(rows, i, orderId, flag);
    } else {
      QueryEmpty(rows, PackageColumn, code);
      StatusAfterPackageUpdate(rows, code, orderId, flag);
    }
  }

  /** `update_product`: write `order_id` and `is_gts_done` to every resolved unit, all or nothing. */
  method UpdateProduct(db: ProductDb, code: string, orderId: string, flag: Option<bool>, failure: bool)
    returns (resp: UpdateResponse)
    requires db.Valid()
    modifies db
    ensures db.Valid()
    ensures |Resolved(old(db.rows), code)| == 0 ==>
      resp == NoMatch(code, PackageColumn) && db.rows == old(db.rows)
    ensures |Resolved(old(db.rows), code)| > 0 && failure ==>
      resp == Failed && db.rows == old(db.rows)
    ensures |Resolved(old(db.rows), code)| > 0 && !failure ==>
      resp == Updated(|Resolved(old(db.rows), code)|, ResolveColumn(old(db.rows), code)) &&
      db.rows == Assign(old(db.rows), ResolveColumn(old(db.rows), code), code, orderId, flag)
  {
    var saved := db.rows;
    var col := ResolveColumn(saved, code);
    var selected := Query(saved, col, code);
    if |selected| == 0 {
      return NoMatch(code, PackageColumn);
    }
    var i := 0;
    while i < |saved|
      invariant 0 <= i <= |saved| && |db.rows| == |saved|
      invariant forall t :: 0 <= t < i ==> db.rows[t] == Write(saved[t], col, code, orderId, flag)
      invariant forall t :: i <= t < |saved| ==> db.rows[t] == saved[t]
    {
      db.rows := db.rows[i := Write(db.rows[i], col, code, orderId, flag)];
      i := i + 1;
    }
    forall t | 0 <= t < |saved|
      ensures db.rows[t] == Assign(saved, col, code, orderId, flag)[t]
    {
      AssignPointwise(saved, col, code, orderId, flag, t);
    }
    ghost var written := db.rows;
    assert written == Assign(saved, col, code, orderId, flag);
    if failure {
      // the session rolls back: no partial write is committed
      db.rows := saved;
      return Failed;
    }
    AssignKeepsKeys(saved, col, code, orderId, flag);
    resp := Updated(|selected|, col);
  }
}
