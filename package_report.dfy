/**
 * The package aggregation report served at `/api/products`: units grouped by
 * package barcode, per-package completion and pending volume, fleet totals,
 * the (size, pending) frequency table and the package list ordered
 * complete packages first, then by size.
 */
module PackageReport {
  import opened Common
  import opened ProductTable

  /** The per-unit detail kept for display inside a package entry. */
  datatype UnitDetail = UnitDetail(
    barcode: string,
    warehouse: Option<string>,
    orderId: string,
    isGtsDone: Option<bool>,
    inStock: Option<bool>,
    amount: Option<int>)

  datatype PackageEntry = PackageEntry(
    packageBarcode: string,
    count: nat,
    warehouse: Option<string>,
    inStock: Option<bool>,
    pendingAmount: int,
    allGtsDone: bool,
    products: seq<UnitDetail>)

  /** A frequency-table key: package size and pending centilitres. */
  datatype Signature = Signature(size: nat, pending: int)

  /** One line of the detailed summary: `packages` packages of `size` units with `pending` left. */
  datatype DetailLine = DetailLine(packages: nat, size: nat, pending: int)

  /** The figures of the basic summary sentence. */
  datatype Summary = Summary(
    totalPackages: nat,
    totalProducts: nat,
    totalPendingAmount: int,
    totalGtsDone: nat,
    totalGtsNotDone: nat)

  datatype Report = Report(summary: Summary, detailed: seq<DetailLine>, packages: seq<PackageEntry>)

  /** The table holds no product at all. */
  datatype ReportError = NoProducts

  function Detail(p: Product): UnitDetail {
    UnitDetail(p.barcode, p.warehouse, p.orderId, p.isGtsDone, p.inStock, p.amount)
  }

  // ---------------------------------------------------------------------
  // Per-unit weights and their sums

  function UnitWeight(p: Product): int { 1 }
  function DoneWeight(p: Product): int { if Truthy(p.isGtsDone) then 1 else 0 }
  function NotDoneWeight(p: Product): int { if Truthy(p.isGtsDone) then 0 else 1 }
  /** Only units whose GTS is not done contribute their amount. */
  function PendingWeight(p: Product): int { if Truthy(p.isGtsDone) then 0 else AmountOrZero(p) }

  /** The sum of a weight over a sequence of units. */
  function Total(ps: seq<Product>, w: Product -> int): int {
    if |ps| == 0 then 0 else Total(ps[..|ps| - 1], w) + w(ps[|ps| - 1])
  }

  lemma TotalSnoc(ps: seq<Product>, p: Product, w: Product -> int)
    ensures Total(ps + [p], w) == Total(ps, w) + w(p)
  {
    assert (ps + [p])[..|ps|] == ps;
  }

  lemma TotalPrefix(ps: seq<Product>, i: nat, w: Product -> int)
    requires i < |ps|
    ensures Total(ps[..i + 1], w) == Total(ps[..i], w) + w(ps[i])
  {
    assert ps[..i + 1] == ps[..i] + [ps[i]];
    TotalSnoc(ps[..i], ps[i], w);
  }

  lemma {:induction false} TotalAppend(a: seq<Product>, b: seq<Product>, w: Product -> int)
    ensures Total(a + b, w) == Total(a, w) + Total(b, w)
  {
    if |b| > 0 {
      var init := b[..|b| - 1];
      assert a + b == (a + init) + [b[|b| - 1]];
      TotalSnoc(a + init, b[|b| - 1], w);
      TotalAppend(a, init, w);
    } else {
      assert a + b == a;
    }
  }

  /** Counting units one by one gives the size of the sequence. */
  lemma {:induction false} UnitTotalIsLength(ps: seq<Product>)
    ensures Total(ps, UnitWeight) == |ps|
  {
    if |ps| > 0 {
      UnitTotalIsLength(ps[..|ps| - 1]);
    }
  }

  /** Every unit is counted as done or as not done, never both. */
  lemma {:induction false} DoneAndNotDoneSplitUnits(ps: seq<Product>)
    ensures Total(ps, DoneWeight) + Total(ps, NotDoneWeight) == |ps|
    ensures Total(ps, DoneWeight) >= 0 && Total(ps, NotDoneWeight) >= 0
  {
    if |ps| > 0 {
      DoneAndNotDoneSplitUnits(ps[..|ps| - 1]);
    }
  }

  /** A package is complete exactly when none of its units is counted as not done. */
  lemma {:induction false} AllDoneIffNothingPending(ps: seq<Product>)
    ensures AllDone(ps) <==> Total(ps, NotDoneWeight) == 0
  {
    if |ps| > 0 {
      var init := ps[..|ps| - 1];
      AllDoneIffNothingPending(init);
      DoneAndNotDoneSplitUnits(init);
      assert forall i :: 0 <= i < |init| ==> init[i] == ps[i];
    }
  }

  /** A unit whose GTS is done never changes the pending amount, wherever it sits. */
  lemma DoneUnitAddsNoPending(a: seq<Product>, p: Product, b: seq<Product>)
    requires Truthy(p.isGtsDone)
    ensures Total(a + [p] + b, PendingWeight) == Total(a + b, PendingWeight)
  {
    TotalAppend(a + [p], b, PendingWeight);
    TotalSnoc(a, p, PendingWeight);
    TotalAppend(a, b, PendingWeight);
  }

  // ---------------------------------------------------------------------
  // Grouping

  /** The entry for package `k` built from its units in table order. */
  function PackageOf(k: string, units: seq<Product>): PackageEntry {
    PackageEntry(
      k,
      |units|,
      if |units| == 0 then Some("") else units[|units| - 1].warehouse,
      if |units| == 0 then Some(false) else units[|units| - 1].inStock,
      Total(units, PendingWeight),
      AllDone(units),
      Details(units))
  }

  /** The per-unit detail list, in the package's unit order. */
  function Details(units: seq<Product>): (r: seq<UnitDetail>)
    ensures |r| == |units| && forall i :: 0 <= i < |units| ==> r[i] == Detail(units[i])
  {
    if |units| == 0 then [] else Details(units[..|units| - 1]) + [Detail(units[|units| - 1])]
  }

  /** The package list before sorting: one entry per package, in first-appearance order. */
  function Grouped(products: seq<Product>): seq<PackageEntry> {
    var keys := DistinctPackages(products);
    seq(|keys|, i requires 0 <= i < |keys| => PackageOf(keys[i], Query(products, PackageColumn, keys[i])))
  }

  /** Each unit lies in exactly one package entry, and that entry counts the units sharing its package barcode. */
  lemma GroupedCoversEveryUnit(products: seq<Product>, u: nat)
    requires u < |products|
    ensures exists t :: 0 <= t < |Grouped(products)| && Grouped(products)[t].packageBarcode == products[u].packageBarcode
    ensures forall t, t' :: 0 <= t < t' < |Grouped(products)| ==> Grouped(products)[t].packageBarcode != Grouped(products)[t'].packageBarcode
    ensures forall t :: 0 <= t < |Grouped(products)| && Grouped(products)[t].packageBarcode == products[u].packageBarcode ==>
      Grouped(products)[t].count == |Query(products, PackageColumn, products[u].packageBarcode)| &&
      Grouped(products)[t].products == Details(Query(products, PackageColumn, products[u].packageBarcode)) &&
      products[u] in Query(products, PackageColumn, products[u].packageBarcode)
  {
    var keys := DistinctPackages(products);
    var k := products[u].packageBarcode;
    DistinctPackagesSpec(products);
    assert k in keys;
    var t :| 0 <= t < |keys| && keys[t] == k;
    assert Grouped(products)[t].packageBarcode == k;
    QueryComplete(products, PackageColumn, k);
  }

  /** Sum over the listed packages of a per-unit weight: what the report accumulates package by package. */
  function PackageTotal(products: seq<Product>, keys: seq<string>, w: Product -> int): int {
    if |keys| == 0 then 0
    else PackageTotal(products, keys[..|keys| - 1], w) + Total(Query(products, PackageColumn, keys[|keys| - 1]), w)
  }

  lemma {:induction false} PackageTotalSnoc(products: seq<Product>, p: Product, keys: seq<string>, w: Product -> int)
    requires forall a, b :: 0 <= a < b < |keys| ==> keys[a] != keys[b]
    ensures PackageTotal(products + [p], keys, w) == PackageTotal(products, keys, w) + (if p.packageBarcode in keys then w(p) else 0)
  {
    if |keys| > 0 {
      var init := keys[..|keys| - 1];
      var last := keys[|keys| - 1];
      PackageTotalSnoc(products, p, init, w);
      QuerySnoc(products, p, PackageColumn, last);
      TotalSnoc(Query(products, PackageColumn, last), p, w);
      assert keys == init + [last];
      assert last !in init;
    }
  }

  /**
   * Summing a weight package by package over the distinct package barcodes
   * gives the sum over all units: the packages partition the table.
   */
  lemma {:induction false} PartitionTotal(products: seq<Product>, w: Product -> int)
    ensures PackageTotal(products, DistinctPackages(products), w) == Total(products, w)
  {
    if |products| > 0 {
      var init := products[..|products| - 1];
      var p := products[|products| - 1];
      var keys := DistinctPackages(init);
      assert products == init + [p];
      DistinctPackagesSpec(init);
      DistinctPackagesSnoc(init, p);
      PartitionTotal(init, w);
      PackageTotalSnoc(init, p, keys, w);
      if p.packageBarcode !in keys {
        var k := p.packageBarcode;
        assert DistinctPackages(products) == keys + [k];
        assert (keys + [k])[..|keys|] == keys;
        AbsentPackageIsEmpty(init, k);
        QuerySnoc(init, p, PackageColumn, k);
        assert Query(products, PackageColumn, k) == [p];
        TotalSnoc([], p, w);
        assert [] + [p] == [p];
      }
    }
  }

  /** The sum of the package sizes is the number of units. */
  lemma PackageSizesSumToUnits(products: seq<Product>)
    ensures PackageTotal(products, DistinctPackages(products), UnitWeight) == |products|
  {
    PartitionTotal(products, UnitWeight);
    UnitTotalIsLength(products);
  }

  // ---------------------------------------------------------------------
  // The stable sort by (not all_gts_done, count)

  /** The sort key `(not all_gts_done, count)`; False sorts before True. */
  datatype SortKey = SortKey(incomplete: bool, count: nat)

  function SortKeyOf(e: PackageEntry): SortKey {
    SortKey(!e.allGtsDone, e.count)
  }

  /** Lexicographic order on sort keys. */
  predicate KeyLess(a: SortKey, b: SortKey) {
    (!a.incomplete && b.incomplete) || (a.incomplete == b.incomplete && a.count < b.count)
  }

  predicate KeyLe(a: SortKey, b: SortKey) {
    !KeyLess(b, a)
  }

  ghost predicate SortedByKey(s: seq<PackageEntry>) {
    forall i, j :: 0 <= i < j < |s| ==> KeyLe(SortKeyOf(s[i]), SortKeyOf(s[j]))
  }

  /** The entries whose sort key is `k`, in their order. */
  function WithKey(s: seq<PackageEntry>, k: SortKey): seq<PackageEntry> {
    if |s| == 0 then []
    else (if SortKeyOf(s[0]) == k then [s[0]] else []) + WithKey(s[1..], k)
  }

  /** Places `x` before the first entry whose key is not smaller. */
  function Insert(x: PackageEntry, s: seq<PackageEntry>): seq<PackageEntry> {
    if |s| == 0 then [x]
    else if KeyLe(SortKeyOf(x), SortKeyOf(s[0])) then [x] + s
    else [s[0]] + Insert(x, s[1..])
  }

  /** `result.sort(key=lambda x: (not x['all_gts_done'], x['count']))`: a stable sort. */
  function SortPackages(s: seq<PackageEntry>): seq<PackageEntry> {
    if |s| == 0 then [] else Insert(s[0], SortPackages(s[1..]))
  }

  lemma KeyLeTransitive(a: SortKey, b: SortKey, c: SortKey)
    requires KeyLe(a, b) && KeyLe(b, c)
    ensures KeyLe(a, c)
  {
  }

  /** An entry whose key is not above the head's can be put in front of an ordered list. */
  lemma SortedCons(x: PackageEntry, s: seq<PackageEntry>)
    requires SortedByKey(s)
    requires |s| == 0 || KeyLe(SortKeyOf(x), SortKeyOf(s[0]))
    ensures SortedByKey([x] + s)
  {
    var r := [x] + s;
    forall i, j | 0 <= i < j < |r|
      ensures KeyLe(SortKeyOf(r[i]), SortKeyOf(r[j]))
    {
      if i == 0 && j > 1 {
        KeyLeTransitive(SortKeyOf(x), SortKeyOf(s[0]), SortKeyOf(s[j - 1]));
      }
    }
  }

  /** Insertion adds exactly the inserted entry. */
  lemma {:induction false} InsertPermutes(x: PackageEntry, s: seq<PackageEntry>)
    ensures multiset(Insert(x, s)) == multiset([x] + s)
    ensures |Insert(x, s)| == |s| + 1
  {
    if |s| > 0 && !KeyLe(SortKeyOf(x), SortKeyOf(s[0])) {
      var rest := s[1..];
      InsertPermutes(x, rest);
      assert s == [s[0]] + rest;
    }
  }

  lemma {:induction false} InsertSorted(x: PackageEntry, s: seq<PackageEntry>)
    requires SortedByKey(s)
    ensures SortedByKey(Insert(x, s))
    ensures multiset(Insert(x, s)) == multiset([x] + s)
    ensures |Insert(x, s)| == |s| + 1
  {
    InsertPermutes(x, s);
    if |s| > 0 && !KeyLe(SortKeyOf(x), SortKeyOf(s[0])) {
      var rest := s[1..];
      InsertSorted(x, rest);
      var r := Insert(x, rest);
      InsertPermutes(x, rest);
      assert Insert(x, s) == [s[0]] + r;
      assert |r| > 0;
      assert r[0] in multiset(r);
      assert r[0] == x || r[0] in rest;
      SortedCons(s[0], r);
    } else {
      SortedCons(x, s);
    }
  }

  lemma {:induction false} InsertWithKey(x: PackageEntry, s: seq<PackageEntry>, k: SortKey)
    requires SortedByKey(s)
    ensures WithKey(Insert(x, s), k) == WithKey([x] + s, k)
  {
    if |s| > 0 && !KeyLe(SortKeyOf(x), SortKeyOf(s[0])) {
      var rest := s[1..];
      assert SortedByKey(rest);
      InsertWithKey(x, rest, k);
      assert ([s[0]] + Insert(x, rest))[1..] == Insert(x, rest);
      assert ([x] + rest)[1..] == rest;
      assert ([x] + s)[1..] == s;
      assert ([s[0]] + ([x] + rest))[1..] == [x] + rest;
      assert s == [s[0]] + rest;
    }
  }

  /** The sort yields an ordered permutation of its input. */
  lemma {:induction false} SortPackagesSorted(s: seq<PackageEntry>)
    ensures SortedByKey(SortPackages(s))
    ensures multiset(SortPackages(s)) == multiset(s)
  {
    if |s| > 0 {
      SortPackagesSorted(s[1..]);
      InsertSorted(s[0], SortPackages(s[1..]));
      assert s == [s[0]] + s[1..];
    }
  }

  /** The sort is stable: entries with equal keys keep their grouping order. */
  lemma {:induction false} SortPackagesStable(s: seq<PackageEntry>, k: SortKey)
    ensures WithKey(SortPackages(s), k) == WithKey(s, k)
  {
    if |s| > 0 {
      SortPackagesStable(s[1..], k);
      SortPackagesSorted(s[1..]);
      InsertWithKey(s[0], SortPackages(s[1..]), k);
      assert ([s[0]] + SortPackages(s[1..]))[1..] == SortPackages(s[1..]);
    }
  }

  /**
   * What the key means for the response: every complete package comes before
   * every incomplete one, and within each half smaller packages come first.
   */
  lemma CompleteBeforeIncomplete(s: seq<PackageEntry>)
    ensures var r := SortPackages(s);
      forall i, j :: 0 <= i < j < |r| && r[j].allGtsDone ==> r[i].allGtsDone
    ensures var r := SortPackages(s);
      forall i, j :: 0 <= i < j < |r| && r[i].allGtsDone == r[j].allGtsDone ==> r[i].count <= r[j].count
  {
    SortPackagesSorted(s);
  }

  // ---------------------------------------------------------------------
  // The frequency table and the detailed summary

  function SignatureOf(e: PackageEntry): Signature {
    Signature(e.count, e.pendingAmount)
  }

  function LineSignature(l: DetailLine): Signature {
    Signature(l.size, l.pending)
  }

  /** Lexicographic order on (size, pending) tuples. */
  predicate SigLess(a: Signature, b: Signature) {
    a.size < b.size || (a.size == b.size && a.pending < b.pending)
  }

  predicate SigLe(a: Signature, b: Signature) {
    a == b || SigLess(a, b)
  }

  /** How many entries carry signature `s`: the Counter's value for `s`. */
  function CountSignature(entries: seq<PackageEntry>, s: Signature): nat {
    if |entries| == 0 then 0
    else CountSignature(entries[..|entries| - 1], s) + (if SignatureOf(entries[|entries| - 1]) == s then 1 else 0)
  }

  lemma {:induction false} CountSignatureOfMember(entries: seq<PackageEntry>, e: PackageEntry)
    requires e in entries
    ensures CountSignature(entries, SignatureOf(e)) > 0
  {
    var init := entries[..|entries| - 1];
    if entries[|entries| - 1] != e {
      assert entries == init + [entries[|entries| - 1]];
      assert e in init;
      CountSignatureOfMember(init, e);
    }
  }

  /**
   * The detailed summary for a package list: one line per signature with
   * pending volume, counting the packages of that signature, strictly
   * descending by signature.
   */
  ghost predicate DetailedSummaryOf(lines: seq<DetailLine>, entries: seq<PackageEntry>) {
    && (forall i :: 0 <= i < |lines| ==>
          lines[i].pending > 0 && lines[i].packages > 0 &&
          lines[i].packages == CountSignature(entries, LineSignature(lines[i])))
    && (forall e :: e in entries && e.pendingAmount > 0 ==> Listed(SignatureOf(e), lines))
    && Descending(lines)
  }

  lemma SigLeTransitive(a: Signature, b: Signature, c: Signature)
    requires SigLe(a, b) && SigLe(b, c)
    ensures SigLe(a, c)
  {
  }

  /** `m` is the largest signature of `s`. */
  predicate IsLargest(m: Signature, s: set<Signature>) {
    m in s && forall t :: t in s ==> SigLe(t, m)
  }

  /** A finite non-empty set of signatures has a largest element. */
  lemma {:induction false} LargestSignatureExists(s: set<Signature>)
    requires s != {}
    ensures exists m :: IsLargest(m, s)
  {
    var x :| x in s;
    var rest := s - {x};
    if rest == {} {
      forall t | t in s
        ensures SigLe(t, x)
      {
        assert t in rest || t == x;
      }
      assert IsLargest(x, s);
    } else {
      LargestSignatureExists(rest);
      var m' :| IsLargest(m', rest);
      if SigLess(x, m') {
        forall t | t in s
          ensures SigLe(t, m')
        {
          if t != x {
            assert t in rest;
          }
        }
        assert IsLargest(m', s);
      } else {
        forall t | t in s
          ensures SigLe(t, x)
        {
          if t != x {
            assert t in rest;
            SigLeTransitive(t, m', x);
          }
        }
        assert IsLargest(x, s);
      }
    }
  }

  /** The lines are strictly descending by signature, hence one per signature. */
  ghost predicate Descending(lines: seq<DetailLine>) {
    forall i, j :: 0 <= i < j < |lines| ==> SigLess(LineSignature(lines[j]), LineSignature(lines[i]))
  }

  /** Every line has pending volume and carries the counter's value for its signature. */
  ghost predicate CountedLines(lines: seq<DetailLine>, counter: map<Signature, nat>) {
    forall i :: 0 <= i < |lines| ==>
      LineSignature(lines[i]) in counter && lines[i].pending > 0 &&
      lines[i].packages == counter[LineSignature(lines[i])]
  }

  ghost predicate Listed(s: Signature, lines: seq<DetailLine>) {
    exists i :: 0 <= i < |lines| && LineSignature(lines[i]) == s
  }

  /** Every signature with pending volume outside `pool` has its line. */
  ghost predicate CoveredOutside(counter: map<Signature, nat>, pool: set<Signature>, lines: seq<DetailLine>) {
    forall s :: s in counter && s !in pool && s.pending > 0 ==> Listed(s, lines)
  }

  /** Every signature still in `pool` is smaller than every line emitted. */
  ghost predicate PoolBelow(pool: set<Signature>, lines: seq<DetailLine>) {
    forall i, s :: 0 <= i < |lines| && s in pool ==> SigLess(s, LineSignature(lines[i]))
  }

  /** Emitting (or skipping) the largest remaining signature keeps the loop's invariants. */
  lemma EmitLargest(counter: map<Signature, nat>, pool: set<Signature>, lines: seq<DetailLine>, top: Signature, lines': seq<DetailLine>)
    requires pool <= counter.Keys && IsLargest(top, pool)
    requires Descending(lines) && CountedLines(lines, counter)
    requires CoveredOutside(counter, pool, lines) && PoolBelow(pool, lines)
    requires lines' == if top.pending > 0 then lines + [DetailLine(counter[top], top.size, top.pending)] else lines
    ensures Descending(lines') && CountedLines(lines', counter)
    ensures CoveredOutside(counter, pool - {top}, lines') && PoolBelow(pool - {top}, lines')
  {
    assert forall i :: 0 <= i < |lines| ==> lines'[i] == lines[i];
    forall s | s in counter && s !in pool - {top} && s.pending > 0
      ensures Listed(s, lines')
    {
      if s != top {
        var i :| 0 <= i < |lines| && LineSignature(lines[i]) == s;
        assert LineSignature(lines'[i]) == s;
      } else {
        assert LineSignature(lines'[|lines|]) == s;
      }
    }
    forall i, s | 0 <= i < |lines'| && s in pool - {top}
      ensures SigLess(s, LineSignature(lines'[i]))
    {
      if i == |lines| {
        assert SigLe(s, top);
      }
    }
  }

  /**
   * `sorted(package_size_counter.items(), reverse=True)` filtered to the
   * signatures with pending volume.
   */
  method DescendingLines(counter: map<Signature, nat>) returns (lines: seq<DetailLine>)
    ensures CountedLines(lines, counter)
    ensures forall s :: s in counter && s.pending > 0 ==> Listed(s, lines)
    ensures Descending(lines)
  {
    var remaining := counter.Keys;
    lines := [];
    while remaining != {}
      invariant remaining <= counter.Keys
      invariant Descending(lines) && CountedLines(lines, counter)
      invariant CoveredOutside(counter, remaining, lines) && PoolBelow(remaining, lines)
      decreases |remaining|
    {
      LargestSignatureExists(remaining);
      var top :| IsLargest(top, remaining);
      var next := if top.pending > 0 then lines + [DetailLine(counter[top], top.size, top.pending)] else lines;
      EmitLargest(counter, remaining, lines, top, next);
      lines := next;
      remaining := remaining - {top};
    }
  }

  // ---------------------------------------------------------------------
  // The endpoint

  /** The inner loop over one package's units. */
  method TallyPackage(k: string, units: seq<Product>) returns (e: PackageEntry, done: nat, notDone: nat)
    ensures e == PackageOf(k, units)
    ensures done == Total(units, DoneWeight) && notDone == Total(units, NotDoneWeight)
    ensures e.pendingAmount == Total(units, PendingWeight) && e.count == |units|
    ensures e.allGtsDone <==> notDone == 0
  {
    var details: seq<UnitDetail> := [];
    var allDone := AllDone(units);
    var pending := 0;
    var warehouse: Option<string> := Some("");
    var inStock := Some(false);
    done, notDone := 0, 0;
    var i := 0;
    while i < |units|
      invariant 0 <= i <= |units|
      invariant details == Details(units[..i])
      invariant pending == Total(units[..i], PendingWeight)
      invariant done == Total(units[..i], DoneWeight)
      invariant notDone == Total(units[..i], NotDoneWeight)
      invariant i == 0 ==> warehouse == Some("") && inStock == Some(false)
      invariant i > 0 ==> warehouse == units[i - 1].warehouse && inStock == units[i - 1].inStock
    {
      var p := units[i];
      details := details + [Detail(p)];
      warehouse := p.warehouse;
      inStock := p.inStock;
      assert units[..i + 1][..i] == units[..i];
      TotalPrefix(units, i, PendingWeight);
      TotalPrefix(units, i, DoneWeight);
      TotalPrefix(units, i, NotDoneWeight);
      if Truthy(p.isGtsDone) {
        done := done + 1;
      } else {
        notDone := notDone + 1;
        pending := pending + AmountOrZero(p);
      }
      i := i + 1;
    }
    assert units[..|units|] == units;
    AllDoneIffNothingPending(units);
    e := PackageEntry(k, |units|, warehouse, inStock, pending, allDone, details);
  }

  /** The grouping loop: `grouped[product.package_barcode].append(product)`. */
  method GroupUnits(products: seq<Product>) returns (keys: seq<string>, groups: map<string, seq<Product>>)
    ensures keys == DistinctPackages(products)
    ensures forall k :: k in groups <==> k in keys
    ensures forall k :: k in groups ==> groups[k] == Query(products, PackageColumn, k)
  {
    keys, groups := [], map[];
    var i := 0;
    while i < |products|
      invariant 0 <= i <= |products|
      invariant keys == DistinctPackages(products[..i])
      invariant forall k :: k in groups <==> k in keys
      invariant forall k :: k in groups ==> groups[k] == Query(products[..i], PackageColumn, k)
    {
      var p := products[i];
      ghost var seen := products[..i];
      assert products[..i + 1] == seen + [p];
      var k := p.packageBarcode;
      DistinctPackagesSnoc(seen, p);
      if k !in groups {
        AbsentPackageIsEmpty(seen, k);
        keys := keys + [k];
      }
      var current := if k in groups then groups[k] else [];
      groups := groups[k := current + [p]];
      forall k' | k' in groups
        ensures groups[k'] == Query(seen + [p], PackageColumn, k')
      {
        QuerySnoc(seen, p, PackageColumn, k');
      }
      i := i + 1;
    }
    assert products[..i] == products;
  }

  lemma GroupedAt(products: seq<Product>, j: nat)
    requires j < |DistinctPackages(products)|
    ensures |Grouped(products)| == |DistinctPackages(products)|
    ensures Grouped(products)[j] == PackageOf(DistinctPackages(products)[j], Query(products, PackageColumn, DistinctPackages(products)[j]))
  {
  }

  lemma GroupedPrefixSnoc(products: seq<Product>, j: nat)
    requires j < |DistinctPackages(products)|
    ensures var keys := DistinctPackages(products);
      Grouped(products)[..j + 1] == Grouped(products)[..j] + [PackageOf(keys[j], Query(products, PackageColumn, keys[j]))]
  {
    GroupedAt(products, j);
    PrefixSnoc(Grouped(products), j);
  }

  lemma PrefixSnoc<T>(s: seq<T>, j: nat)
    requires j < |s|
    ensures s[..j + 1] == s[..j] + [s[j]]
  {
  }

  lemma CountSignatureSnoc(entries: seq<PackageEntry>, e: PackageEntry, s: Signature)
    ensures CountSignature(entries + [e], s) == CountSignature(entries, s) + (if SignatureOf(e) == s then 1 else 0)
  {
    assert (entries + [e])[..|entries|] == entries;
  }

  /** `counter` is the Counter of the signatures of `entries`. */
  ghost predicate CounterOf(counter: map<Signature, nat>, entries: seq<PackageEntry>) {
    forall s {:trigger CountSignature(entries, s)} :: CountSignature(entries, s) == Tally(counter, s) && (s in counter ==> counter[s] > 0)
  }

  /** A Counter's value for `s`: zero when `s` was never counted. */
  function Tally(counter: map<Signature, nat>, s: Signature): nat {
    if s in counter then counter[s] else 0
  }

  /** `package_size_counter[(package_size, package_pending_amount)] += 1` */
  lemma CounterStep(counter: map<Signature, nat>, entries: seq<PackageEntry>, e: PackageEntry)
    requires CounterOf(counter, entries)
    ensures CounterOf(counter[SignatureOf(e) := Tally(counter, SignatureOf(e)) + 1], entries + [e])
  {
    forall s
      ensures CountSignature(entries + [e], s) == CountSignature(entries, s) + (if SignatureOf(e) == s then 1 else 0)
    {
      CountSignatureSnoc(entries, e, s);
    }
  }

  /** After the first `j` packages: their entries, the running totals and the Counter. */
  ghost predicate Accumulated(products: seq<Product>, keys: seq<string>, j: nat, result: seq<PackageEntry>,
                              totalProducts: int, totalDone: int, totalNotDone: int, totalPending: int,
                              counter: map<Signature, nat>)
  {
    && keys == DistinctPackages(products) && j <= |keys|
    && result == Grouped(products)[..j]
    && TotalsAt(products, keys, j, totalProducts, totalDone, totalNotDone, totalPending)
    && CounterOf(counter, result)
  }

  /** The four running totals over the first `j` packages. */
  ghost predicate TotalsAt(products: seq<Product>, keys: seq<string>, j: nat,
                           totalProducts: int, totalDone: int, totalNotDone: int, totalPending: int)
    requires j <= |keys|
  {
    && totalProducts == PackageTotal(products, keys[..j], UnitWeight)
    && totalDone == PackageTotal(products, keys[..j], DoneWeight)
    && totalNotDone == PackageTotal(products, keys[..j], NotDoneWeight)
    && totalPending == PackageTotal(products, keys[..j], PendingWeight)
  }

  lemma TotalsStep(products: seq<Product>, keys: seq<string>, j: nat, units: seq<Product>,
                   totalProducts: int, totalDone: int, totalNotDone: int, totalPending: int)
    requires j < |keys| && units == Query(products, PackageColumn, keys[j])
    requires TotalsAt(products, keys, j, totalProducts, totalDone, totalNotDone, totalPending)
    ensures TotalsAt(products, keys, j + 1, totalProducts + |units|, totalDone + Total(units, DoneWeight),
                     totalNotDone + Total(units, NotDoneWeight), totalPending + Total(units, PendingWeight))
  {
    UnitTotalIsLength(units);
    PackageTotalPrefix(products, keys, j, UnitWeight);
    PackageTotalPrefix(products, keys, j, DoneWeight);
    PackageTotalPrefix(products, keys, j, NotDoneWeight);
    PackageTotalPrefix(products, keys, j, PendingWeight);
  }

  /** One pass of the loop body: the entry of package `j` is appended, its units counted and its signature tallied. */
  method AddPackage(products: seq<Product>, keys: seq<string>, j: nat, units: seq<Product>, result: seq<PackageEntry>,
                    totalProducts: int, totalDone: int, totalNotDone: int, totalPending: int,
                    counter: map<Signature, nat>)
    returns (result': seq<PackageEntry>, totalProducts': int, totalDone': int, totalNotDone': int, totalPending': int,
             counter': map<Signature, nat>)
    requires j < |keys| && units == Query(products, PackageColumn, keys[j])
    requires Accumulated(products, keys, j, result, totalProducts, totalDone, totalNotDone, totalPending, counter)
    ensures Accumulated(products, keys, j + 1, result', totalProducts', totalDone', totalNotDone', totalPending', counter')
  {
    var e, done, notDone := TallyPackage(keys[j], units);
    GroupedPrefixSnoc(products, j);
    TotalsStep(products, keys, j, units, totalProducts, totalDone, totalNotDone, totalPending);
    CounterStep(counter, result, e);
    totalProducts' := totalProducts + e.count;
    totalDone' := totalDone + done;
    totalNotDone' := totalNotDone + notDone;
    totalPending' := totalPending + e.pendingAmount;
    var sig := SignatureOf(e);
    counter' := counter[sig := Tally(counter, sig) + 1];
    result' := result + [e];
  }

  /** The loop over `grouped.items()`: one entry per package, the running totals and the Counter. */
  method AccumulatePackages(products: seq<Product>, keys: seq<string>, groups: map<string, seq<Product>>)
    returns (result: seq<PackageEntry>, totalProducts: int, totalDone: int, totalNotDone: int, totalPending: int,
             counter: map<Signature, nat>)
    requires keys == DistinctPackages(products)
    requires forall k :: k in groups <==> k in keys
    requires forall k :: k in groups ==> groups[k] == Query(products, PackageColumn, k)
    ensures result == Grouped(products)
    ensures totalProducts == PackageTotal(products, keys, UnitWeight)
    ensures totalDone == PackageTotal(products, keys, DoneWeight)
    ensures totalNotDone == PackageTotal(products, keys, NotDoneWeight)
    ensures totalPending == PackageTotal(products, keys, PendingWeight)
    ensures CounterOf(counter, result)
  {
    result, counter := [], map[];
    totalProducts, totalDone, totalNotDone, totalPending := 0, 0, 0, 0;
    var j := 0;
    while j < |keys|
      invariant 0 <= j <= |keys|
      invariant Accumulated(products, keys, j, result, totalProducts, totalDone, totalNotDone, totalPending, counter)
    {
      var k := keys[j];
      assert k in groups;
      result, totalProducts, totalDone, totalNotDone, totalPending, counter :=
        AddPackage(products, keys, j, groups[k], result, totalProducts, totalDone, totalNotDone, totalPending, counter);
      j := j + 1;
    }
    assert keys[..j] == keys;
    GroupedLength(products);
    assert Grouped(products)[..j] == Grouped(products);
  }

  lemma PackageTotalPrefix(products: seq<Product>, keys: seq<string>, j: nat, w: Product -> int)
    requires j < |keys|
    ensures PackageTotal(products, keys[..j + 1], w) ==
      PackageTotal(products, keys[..j], w) + Total(Query(products, PackageColumn, keys[j]), w)
  {
    assert keys[..j + 1][..j] == keys[..j];
  }

  lemma GroupedLength(products: seq<Product>)
    ensures |Grouped(products)| == |DistinctPackages(products)|
  {
  }

  /** `get_all_products_grouped`. */
  method ProductsGrouped(products: seq<Product>) returns (r: Result<Report, ReportError>)
    ensures r.Err? <==> |products| == 0
    ensures r.Ok? ==> r.value.packages == SortPackages(Grouped(products))
    ensures r.Ok? ==> r.value.summary.totalPackages == |Grouped(products)|
    ensures r.Ok? ==> r.value.summary.totalProducts == |products|
    ensures r.Ok? ==> r.value.summary.totalPendingAmount == Total(products, PendingWeight)
    ensures r.Ok? ==> r.value.summary.totalGtsDone == Total(products, DoneWeight)
    ensures r.Ok? ==> r.value.summary.totalGtsNotDone == Total(products, NotDoneWeight)
    ensures r.Ok? ==> r.value.summary.totalGtsDone + r.value.summary.totalGtsNotDone == |products|
    ensures r.Ok? ==> DetailedSummaryOf(r.value.detailed, Grouped(products))
  {
    if |products| == 0 {
      return Err(NoProducts);
    }
    var keys, groups := GroupUnits(products);
    var result, totalProducts, totalDone, totalNotDone, totalPending, counter := AccumulatePackages(products, keys, groups);
    PackageSizesSumToUnits(products);
    PartitionTotal(products, DoneWeight);
    PartitionTotal(products, NotDoneWeight);
    PartitionTotal(products, PendingWeight);
    DoneAndNotDoneSplitUnits(products);
    GroupedLength(products);

    var packages := SortPackages(result);
    var lines := DescendingLines(counter);
    forall e | e in result && e.pendingAmount > 0
      ensures Listed(SignatureOf(e), lines)
    {
      CountSignatureOfMember(result, e);
    }
    forall i | 0 <= i < |lines|
      ensures lines[i].packages == CountSignature(result, LineSignature(lines[i])) && lines[i].packages > 0
    {
      var sig := LineSignature(lines[i]);
      assert CountSignature(result, sig) == Tally(counter, sig);
    }
    var summary := Summary(|keys|, totalProducts, totalPending, totalDone, totalNotDone);
    r := Ok(Report(summary, lines, packages));
  }

  // ---------------------------------------------------------------------
  // Worked examples

  /** Two undone 0.25 L units of one package: count 2, 0.5 L pending, not complete. */
  lemma TwoPendingUnits(a: Product, b: Product)
    requires a.packageBarcode == "P1" && b.packageBarcode == "P1"
    requires a.amount == Some(25) && b.amount == Some(25)
    requires a.isGtsDone == Some(false) && b.isGtsDone == Some(false)
    ensures Grouped([a, b]) == [PackageOf("P1", [a, b])]
    ensures PackageOf("P1", [a, b]).count == 2
    ensures PackageOf("P1", [a, b]).pendingAmount == 50
    ensures !PackageOf("P1", [a, b]).allGtsDone
  {
    assert [a, b][..1] == [a];
    assert [a][..0] == [];
    assert DistinctPackages([a]) == ["P1"];
    assert DistinctPackages([a, b]) == ["P1"];
    assert Total([a], PendingWeight) == 25;
    assert Query([a, b], PackageColumn, "P1") == [a, b];
  }

  /**
   * The key `(not all_gts_done, count)` puts complete packages (key False)
   * first, then incomplete ones, smaller first: A(2, open), B(1, done),
   * C(1, open) sort to B, C, A.
   */
  lemma SortExample(a: PackageEntry, b: PackageEntry, c: PackageEntry)
    requires a.count == 2 && !a.allGtsDone
    requires b.count == 1 && b.allGtsDone
    requires c.count == 1 && !c.allGtsDone
    ensures SortPackages([a, b, c]) == [b, c, a]
  {
    assert [a, b, c][1..] == [b, c];
    assert [b, c][1..] == [c];
    assert [c][1..] == [];
    assert SortPackages([c]) == [c];
    assert SortPackages([b, c]) == [b, c];
    assert [b, c][1..] == [c];
    assert Insert(a, [c]) == [c, a];
  }
}
