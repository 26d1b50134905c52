/**
 * The `products` table: one row per physical unit, keyed by its barcode and
 * grouped into packages by its package barcode. Shared by the web service and
 * by the stock refresh script, which declare the same thirteen columns.
 */
module ProductTable {
  import opened Common

  /**
   * One unit. `amount` is an exact number of centilitres (0.25 L is 25);
   * `warehouse` is NULL after the stock refresh wrote a NaN cell into it.
   */
  datatype Product = Product(
    barcode: string,
    packageBarcode: string,
    palletBarcode: string,
    shipmentNumber: string,
    deliveryNumber: string,
    batchNumber: string,
    productionDate: string,
    endDate: string,
    orderId: string,
    amount: Option<int>,
    isGtsDone: Option<bool>,
    warehouse: Option<string>,
    inStock: Option<bool>)

  /** Truthiness of a nullable boolean column: NULL and False are both false. */
  predicate Truthy(flag: Option<bool>) {
    flag == Some(true)
  }

  /** Every unit's GTS flag is truthy: `all(p.is_gts_done for p in units)`. */
  predicate AllDone(units: seq<Product>) {
    forall i :: 0 <= i < |units| ==> Truthy(units[i].isGtsDone)
  }

  /** `p.amount or 0`: a missing amount counts as nothing. */
  function AmountOrZero(p: Product): int {
    match p.amount
    case Some(a) => a
    case None => 0
  }

  /** The two columns the service searches on. */
  datatype Column = BarcodeColumn | PackageColumn

  function ColumnValue(p: Product, c: Column): string {
    match c
    case BarcodeColumn => p.barcode
    case PackageColumn => p.packageBarcode
  }

  /** `barcode` is the primary key. */
  ghost predicate UniqueBarcodes(rows: seq<Product>) {
    forall i, j :: 0 <= i < j < |rows| ==> rows[i].barcode != rows[j].barcode
  }

  /**
   * `query(Product).filter(column == v).all()`: the rows whose column holds
   * `v`, in table order.
   */
  function Query(rows: seq<Product>, c: Column, v: string): (r: seq<Product>)
    ensures |r| <= |rows|
    ensures forall p :: p in r ==> p in rows && ColumnValue(p, c) == v
  {
    if |rows| == 0 then []
    else
      var init := Query(rows[..|rows| - 1], c, v);
      if ColumnValue(rows[|rows| - 1], c) == v then init + [rows[|rows| - 1]] else init
  }

  /** Appending a row extends the answer of a query by that row exactly when it matches. */
  lemma QuerySnoc(rows: seq<Product>, p: Product, c: Column, v: string)
    ensures Query(rows + [p], c, v) == Query(rows, c, v) + (if ColumnValue(p, c) == v then [p] else [])
  {
    assert (rows + [p])[..|rows|] == rows;
  }

  /** A query finds nothing exactly when no row holds the value. */
  lemma {:induction false} QueryEmpty(rows: seq<Product>, c: Column, v: string)
    ensures |Query(rows, c, v)| == 0 <==> forall i :: 0 <= i < |rows| ==> ColumnValue(rows[i], c) != v
  {
    if |rows| > 0 {
      var init := rows[..|rows| - 1];
      QueryEmpty(init, c, v);
      if ColumnValue(rows[|rows| - 1], c) != v {
        assert forall i :: 0 <= i < |rows| - 1 ==> rows[i] == init[i];
      }
    }
  }

  /** A query misses no row: every row holding the value is in the answer. */
  lemma {:induction false} QueryComplete(rows: seq<Product>, c: Column, v: string)
    ensures forall i :: 0 <= i < |rows| && ColumnValue(rows[i], c) == v ==> rows[i] in Query(rows, c, v)
  {
    if |rows| > 0 {
      var init := rows[..|rows| - 1];
      QueryComplete(init, c, v);
      assert forall i :: 0 <= i < |rows| - 1 ==> init[i] == rows[i];
    }
  }

  /** Under the primary key, a query on a stored barcode returns exactly that row. */
  lemma {:induction false} QueryByKey(rows: seq<Product>, i: nat)
    requires UniqueBarcodes(rows)
    requires i < |rows|
    ensures Query(rows, BarcodeColumn, rows[i].barcode) == [rows[i]]
  {
    var n := |rows| - 1;
    var init := rows[..n];
    assert UniqueBarcodes(init);
    if i == n {
      QueryEmpty(init, BarcodeColumn, rows[i].barcode);
    } else {
      assert init[i] == rows[i];
      QueryByKey(init, i);
    }
  }

  /**
   * The package barcodes in order of first appearance: the keys of the
   * `defaultdict` that groups the units, in its insertion order.
   */
  function DistinctPackages(rows: seq<Product>): seq<string> {
    if |rows| == 0 then []
    else
      var init := DistinctPackages(rows[..|rows| - 1]);
      var k := rows[|rows| - 1].packageBarcode;
      if k in init then init else init + [k]
  }

  lemma DistinctPackagesSnoc(rows: seq<Product>, p: Product)
    ensures DistinctPackages(rows + [p]) ==
      if p.packageBarcode in DistinctPackages(rows) then DistinctPackages(rows)
      else DistinctPackages(rows) + [p.packageBarcode]
  {
    assert (rows + [p])[..|rows|] == rows;
  }

  /** Exactly the package barcodes that occur are listed, each once. */
  lemma {:induction false} DistinctPackagesSpec(rows: seq<Product>)
    ensures forall k :: k in DistinctPackages(rows) <==> exists i :: 0 <= i < |rows| && rows[i].packageBarcode == k
    ensures forall a, b :: 0 <= a < b < |DistinctPackages(rows)| ==> DistinctPackages(rows)[a] != DistinctPackages(rows)[b]
  {
    if |rows| > 0 {
      var init := rows[..|rows| - 1];
      DistinctPackagesSpec(init);
      assert forall i :: 0 <= i < |rows| - 1 ==> init[i] == rows[i];
    }
  }

  /** A package barcode that no unit carries has no members. */
  lemma AbsentPackageIsEmpty(rows: seq<Product>, k: string)
    requires k !in DistinctPackages(rows)
    ensures Query(rows, PackageColumn, k) == []
  {
    DistinctPackagesSpec(rows);
    QueryEmpty(rows, PackageColumn, k);
  }

  /** The products table as the service's session sees it. */
  class ProductDb {
    var rows: seq<Product>

    ghost predicate Valid()
      reads this
    {
      UniqueBarcodes(rows)
    }

    constructor (initial: seq<Product>)
      requires UniqueBarcodes(initial)
      ensures Valid() && rows == initial
    {
      rows := initial;
    }
  }
}
