/**
 * The calculation end to end: the table is filtered by product and, unless the
 * least-favourite lenders are asked for, by the favourite flag; every remaining
 * row yields a result row; the results are ranked by lender.
 */
module Pipeline {
  import opened Wrappers
  import opened Lenders
  import opened Commission
  import opened Ranking

  /** The results table and the lender ranking built from it. */
  datatype Recommendation = Recommendation(quotes: seq<Quote>, ranked: seq<Entry>)

  /**
   * Filters, the results loop and the ranking. An exception raised while
   * resolving a rate ends the calculation, so there is no ranking then.
   */
  function Recommend(table: seq<Row>, p: Product, amount: nat, showLeastFav: bool): (r: Outcome<Recommendation>)
    ensures r.Raise? <==> Quotes(Eligible(table, p, showLeastFav), p, amount).Raise?
    ensures r.Ok? ==> Quotes(Eligible(table, p, showLeastFav), p, amount) == Ok(r.value.quotes)
    ensures r.Ok? ==> |r.value.quotes| == |Eligible(table, p, showLeastFav)|
    ensures r.Ok? ==> IsRanking(r.value.quotes, r.value.ranked)
  {
    match Quotes(Eligible(table, p, showLeastFav), p, amount)
    case Raise(e) => Raise(e)
    case Ok(qs) => Ok(Recommendation(qs, Rank(qs)))
  }

  /**
   * When the rate of every row of a table resolves for `p`, the calculation
   * reaches a ranking of every eligible row, whatever the amount.
   */
  lemma ResolvedRatesRank(table: seq<Row>, p: Product, amount: nat, showLeastFav: bool)
    requires forall i :: 0 <= i < |table| ==> ResolveRate(table[i].commission, p).Ok?
    ensures Recommend(table, p, amount, showLeastFav).Ok?
    ensures |Recommend(table, p, amount, showLeastFav).value.quotes| == |Eligible(table, p, showLeastFav)|
  {
    var rows := Eligible(table, p, showLeastFav);
    forall i | 0 <= i < |rows| ensures ResolveRate(rows[i].commission, p).Ok? {
      assert rows[i] in table;
    }
    QuotesOk(rows, p, amount);
  }
}
