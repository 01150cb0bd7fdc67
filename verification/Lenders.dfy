/**
 * The lender table and the two row filters applied before commissions are
 * computed: keep the rows offering the chosen product, then (unless the
 * least-favourite lenders are wanted) keep the favourite rows.
 */
module Lenders {
  import opened Wrappers
  import opened Text

  /** The products the product selector offers. */
  datatype Product = PCP | HP | LP

  /** The code of a product as it is written in a row's product list and in a dual rate. */
  function Code(p: Product): string {
    match p
    case PCP => "PCP"
    case HP => "HP"
    case LP => "LP"
  }

  /** An APR cell: a number, or text such as a range or "Rate for risk". Never used in a calculation. */
  datatype Apr = AprRate(percent: real) | AprText(text: string)

  /**
   * One row of the lender table. `products` is the comma-joined product list and
   * `commission` the commission-percentage text, flat ("9.05") or dual-rate
   * ("HP:9.15 PCP:11.15"). A missing cap is `None`.
   */
  datatype Row = Row(
    lender: string,
    band: string,
    products: string,
    apr: Apr,
    commission: string,
    cap: Option<real>,
    favorite: bool)

  /** The built-in lender table, row by row. */
  const Table: seq<Row> := [
    Row("Santander", "0-24,999", "HP,LP,PCP", AprRate(12.9), "9.05", None, true),
    Row("Santander", "25,000-39,999", "HP,LP,PCP", AprRate(11.9), "6.8", None, true),
    Row("Santander", "40,000-49,999", "HP,LP,PCP", AprRate(10.9), "5.15", None, true),
    Row("Santander", "50,000+", "HP,LP,PCP", AprRate(9.9), "4", None, true),
    Row("ZOPA", "0-24,999", "HP,PCP", AprRate(12.9), "HP:9.15 PCP:11.15", Some(3000.0), true),
    Row("ZOPA", "25,000-39,999", "HP,PCP", AprRate(11.9), "HP:7.15 PCP:9.15", Some(3000.0), true),
    Row("ZOPA", "40,000-49,999", "HP,PCP", AprRate(10.9), "HP:5.15 PCP:7.15", Some(3000.0), true),
    Row("Mann Island", "2,500-40,000+", "HP,PCP,LP", AprRate(10.9), "6.75", Some(3000.0), true),
    Row("Motion Finance - Alphera", "All", "HP,PCP", AprRate(10.9), "3.5", None, true),
    Row("Motion Finance - BNP", "All", "HP,PCP", AprRate(10.4), "3.5", None, true),
    Row("Motion Finance - CAAF", "All", "HP,PCP", AprRate(10.9), "3.5", None, true),
    Row("Motion Finance - Close", "All", "HP,PCP", AprRate(10.9), "3.5", None, true),
    Row("Moto Novo", "All", "HP,PCP", AprRate(11.9), "2", None, true),
    Row("Oodle", "All", "HP", AprText("Rate for risk"), "7", Some(2500.0), false),
    Row("Blue", "12.9-19.9", "HP", AprText("12.9-19.9"), "8", Some(2000.0), false),
    Row("Startline Low", "16.9%", "HP,PCP", AprRate(16.9), "5", Some(2000.0), false),
    Row("Startline High", "19.9%", "HP,PCP", AprRate(19.9), "5", Some(1500.0), false),
    Row("Marsh Low", "0-30,000", "HP,PCP", AprText("14.4-23.9"), "0", Some(1500.0), true),
    Row("Marsh High", "0-30,000", "HP,PCP", AprRate(26.9), "0", Some(1500.0), true),
    Row("JBR", "0-500,000", "HP,LP", AprRate(10.9), "5", None, true)
  ]

  /**
   * The table has twenty rows; the four rows Oodle, Blue, Startline Low and
   * Startline High are the least-favourite ones; ZOPA's three bands are
   * rows 4 to 6, the only rows with a cap of 3,000 besides Mann Island's.
   */
  lemma TableShape()
    ensures |Table| == 20
    ensures forall i :: 0 <= i < |Table| ==> (!Table[i].favorite <==> 13 <= i <= 16)
    ensures forall i :: 0 <= i < |Table| ==> (Table[i].lender == "ZOPA" <==> 4 <= i <= 6)
    ensures forall i :: 0 <= i < |Table| ==> (Table[i].cap == Some(3000.0) <==> 4 <= i <= 7)
  {
  }

  /**
   * The elements of `s` for which `keep` holds, in their original order
   * (a boolean-mask selection of a data frame).
   */
  function Filter<T(!new)>(s: seq<T>, keep: T -> bool): (r: seq<T>)
    ensures |r| <= |s|
    ensures forall i :: 0 <= i < |r| ==> keep(r[i])
    ensures forall x :: multiset(r)[x] == if keep(x) then multiset(s)[x] else 0
  {
    if s == [] then []
    else
      var init := s[..|s| - 1];
      var last := s[|s| - 1];
      assert s == init + [last];
      if keep(last) then Filter(init, keep) + [last] else Filter(init, keep)
  }

  /** Filtering preserves order: it distributes over concatenation. */
  lemma {:induction false} FilterAppend<T(!new)>(a: seq<T>, b: seq<T>, keep: T -> bool)
    ensures Filter(a + b, keep) == Filter(a, keep) + Filter(b, keep)
    decreases |b|
  {
    if b == [] {
      assert a + b == a;
    } else {
      var init := b[..|b| - 1];
      assert (a + b)[..|a + b| - 1] == a + init;
      FilterAppend(a, init, keep);
    }
  }

  /** Whether a row offers product `p`: its product list contains the code. */
  predicate Offers(row: Row, p: Product) {
    Contains(row.products, Code(p))
  }

  /** The rows whose product list contains the chosen product's code. */
  function ProductFilter(rows: seq<Row>, p: Product): (r: seq<Row>)
    ensures forall i :: 0 <= i < |r| ==> Offers(r[i], p)
    ensures forall x :: multiset(r)[x] == if Offers(x, p) then multiset(rows)[x] else 0
  {
    Filter(rows, (row: Row) => Offers(row, p))
  }

  /** The rows marked favourite, or every row when least-favourite lenders are included. */
  function FavouriteFilter(rows: seq<Row>, showLeastFav: bool): (r: seq<Row>)
    ensures !showLeastFav ==> forall i :: 0 <= i < |r| ==> r[i].favorite
    ensures !showLeastFav ==> forall x :: multiset(r)[x] == if x.favorite then multiset(rows)[x] else 0
    ensures showLeastFav ==> r == rows
  {
    if showLeastFav then rows else Filter(rows, (row: Row) => row.favorite)
  }

  /** The rows the commission loop runs over. */
  function Eligible(table: seq<Row>, p: Product, showLeastFav: bool): (r: seq<Row>)
    ensures |r| <= |table|
    ensures forall i :: 0 <= i < |r| ==> Offers(r[i], p) && (showLeastFav || r[i].favorite)
    ensures forall i :: 0 <= i < |r| ==> r[i] in table
  {
    FavouriteFilter(ProductFilter(table, p), showLeastFav)
  }

  /** The two filters keep table order: a split table is filtered piece by piece. */
  lemma EligibleAppend(a: seq<Row>, b: seq<Row>, p: Product, showLeastFav: bool)
    ensures Eligible(a + b, p, showLeastFav) == Eligible(a, p, showLeastFav) + Eligible(b, p, showLeastFav)
  {
    FilterAppend(a, b, (row: Row) => Offers(row, p));
    if !showLeastFav {
      FilterAppend(ProductFilter(a, p), ProductFilter(b, p), (row: Row) => row.favorite);
    }
  }

  /** A filter that every element passes changes nothing. */
  lemma {:induction false} FilterAll<T(!new)>(s: seq<T>, keep: T -> bool)
    requires forall i :: 0 <= i < |s| ==> keep(s[i])
    ensures Filter(s, keep) == s
  {
    if s != [] {
      var init := s[..|s| - 1];
      FilterAll(init, keep);
    }
  }

  /** When every row offers the product and is favourite or favourites are not required, the filters change nothing. */
  lemma EligibleAll(rows: seq<Row>, p: Product, showLeastFav: bool)
    requires forall i :: 0 <= i < |rows| ==> Offers(rows[i], p) && (showLeastFav || rows[i].favorite)
    ensures Eligible(rows, p, showLeastFav) == rows
  {
    FilterAll(rows, (row: Row) => Offers(row, p));
    if !showLeastFav {
      FilterAll(rows, (row: Row) => row.favorite);
    }
  }

  /** A row survives both filters exactly when it offers the product and is favourite or favourites are not required. */
  lemma EligibleRows(table: seq<Row>, p: Product, showLeastFav: bool, x: Row)
    ensures x in Eligible(table, p, showLeastFav) <==> x in table && Offers(x, p) && (showLeastFav || x.favorite)
  {
    var r1 := ProductFilter(table, p);
    assert x in r1 <==> multiset(r1)[x] > 0;
    assert x in table <==> multiset(table)[x] > 0;
    var r2 := Eligible(table, p, showLeastFav);
    assert x in r2 <==> multiset(r2)[x] > 0;
  }
}
