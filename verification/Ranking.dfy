/**
 * The ranking of lenders: the results are grouped by lender, each lender is
 * represented by its largest commission, and the lenders are listed from the
 * largest commission down. The sort used for it is not stable, so the order of
 * lenders with equal commissions is not promised; `IsRanking` says what is.
 */
module Ranking {
  import opened Commission

  /** One row of the ranking: a lender and its largest commission. */
  datatype Entry = Entry(lender: string, best: real)

  /** Some result belongs to `lender`. */
  predicate HasLender(qs: seq<Quote>, lender: string) {
    exists i :: 0 <= i < |qs| && qs[i].lender == lender
  }

  /** Some entry belongs to `lender`. */
  predicate Listed(es: seq<Entry>, lender: string) {
    exists i :: 0 <= i < |es| && es[i].lender == lender
  }

  /** `m` is the largest commission among the results of `lender`. */
  ghost predicate IsMaxFor(qs: seq<Quote>, lender: string, m: real) {
    && (exists i :: 0 <= i < |qs| && qs[i].lender == lender && qs[i].commission == m)
    && (forall i :: 0 <= i < |qs| && qs[i].lender == lender ==> qs[i].commission <= m)
  }

  /** The largest commission of `lender` over the results. */
  function MaxFor(qs: seq<Quote>, lender: string): (m: real)
    requires HasLender(qs, lender)
    ensures IsMaxFor(qs, lender, m)
  {
    var init := qs[..|qs| - 1];
    var last := qs[|qs| - 1];
    assert forall i :: 0 <= i < |init| ==> init[i] == qs[i];
    if last.lender != lender then
      MaxFor(init, lender)
    else if !HasLender(init, lender) then
      last.commission
    else
      var m := MaxFor(init, lender);
      if m < last.commission then last.commission else m
  }

  /** The distinct lenders of the results, in order of first appearance. */
  function Lenders(qs: seq<Quote>): (ls: seq<string>)
    ensures forall i, j :: 0 <= i < j < |ls| ==> ls[i] != ls[j]
    ensures forall i :: 0 <= i < |ls| ==> HasLender(qs, ls[i])
    ensures forall i :: 0 <= i < |qs| ==> qs[i].lender in ls
  {
    if qs == [] then []
    else
      var init := qs[..|qs| - 1];
      var last := qs[|qs| - 1];
      assert forall i :: 0 <= i < |init| ==> init[i] == qs[i];
      var ls := Lenders(init);
      if last.lender in ls then ls else ls + [last.lender]
  }

  /** One entry per distinct lender, holding that lender's largest commission. */
  function Group(qs: seq<Quote>): (es: seq<Entry>)
    ensures DistinctLenders(es)
    ensures forall i :: 0 <= i < |es| ==> IsMaxFor(qs, es[i].lender, es[i].best)
    ensures forall lender :: HasLender(qs, lender) ==> Listed(es, lender)
  {
    var ls := Lenders(qs);
    var es := seq(|ls|, i requires 0 <= i < |ls| => Entry(ls[i], MaxFor(qs, ls[i])));
    forall lender | HasLender(qs, lender) ensures Listed(es, lender) {
      var j :| 0 <= j < |qs| && qs[j].lender == lender;
      var i :| 0 <= i < |ls| && ls[i] == lender;
      assert es[i].lender == lender;
    }
    es
  }

  predicate DistinctLenders(es: seq<Entry>) {
    forall i, j :: 0 <= i < j < |es| ==> es[i].lender != es[j].lender
  }

  predicate NonIncreasing(es: seq<Entry>) {
    forall i, j :: 0 <= i < j < |es| ==> es[i].best >= es[j].best
  }

  /** An entry no smaller than the head of a descending list extends it. */
  lemma ConsNonIncreasing(e: Entry, es: seq<Entry>)
    requires NonIncreasing(es) && (es == [] || e.best >= es[0].best)
    ensures NonIncreasing([e] + es)
  {
    var r := [e] + es;
    forall i, j | 0 <= i < j < |r| ensures r[i].best >= r[j].best {
      if i == 0 && j > 1 {
        assert es[0].best >= es[j - 1].best;
      }
    }
  }

  /** Puts `e` in front of the first entry whose commission does not exceed its own. */
  function Insert(e: Entry, es: seq<Entry>): (r: seq<Entry>)
    requires NonIncreasing(es)
    ensures r != [] && (r[0] == e || (es != [] && r[0] == es[0]))
    ensures NonIncreasing(r)
    ensures multiset(r) == multiset(es) + multiset{e}
  {
    if es == [] || e.best >= es[0].best then
      ConsNonIncreasing(e, es);
      [e] + es
    else
      var rest := Insert(e, es[1..]);
      ConsNonIncreasing(es[0], rest);
      assert es == [es[0]] + es[1..];
      [es[0]] + rest
  }

  /** Insertion sort of the entries, largest commission first. */
  function SortDesc(es: seq<Entry>): (r: seq<Entry>)
    ensures NonIncreasing(r)
    ensures multiset(r) == multiset(es)
  {
    if es == [] then []
    else
      assert es == [es[0]] + es[1..];
      Insert(es[0], SortDesc(es[1..]))
  }

  /** Two equal elements at different places occur at least twice. */
  lemma RepeatCount<T>(s: seq<T>, i: nat, j: nat)
    requires i < j < |s| && s[i] == s[j]
    ensures multiset(s)[s[i]] >= 2
  {
    assert s == s[..j] + [s[j]] + s[j + 1..];
    assert s[i] in s[..j];
  }

  /** In a list of distinct lenders every entry occurs at most once. */
  lemma {:induction false} DistinctCount(es: seq<Entry>, x: Entry)
    requires DistinctLenders(es)
    ensures multiset(es)[x] <= 1
  {
    if es != [] {
      var init := es[..|es| - 1];
      assert es == init + [es[|es| - 1]];
      assert DistinctLenders(init);
      DistinctCount(init, x);
      if x == es[|es| - 1] {
        assert x !in init;
      }
    }
  }

  /** Entries of distinct lenders, all drawn from `names`, are at most as many as the names. */
  lemma {:induction false} DistinctBound(es: seq<Entry>, names: set<string>)
    requires DistinctLenders(es)
    requires forall i :: 0 <= i < |es| ==> es[i].lender in names
    ensures |es| <= |names|
  {
    if es != [] {
      var last := es[|es| - 1].lender;
      var init := es[..|es| - 1];
      assert forall i :: 0 <= i < |init| ==> init[i].lender in names - {last} by {
        forall i | 0 <= i < |init| ensures init[i].lender in names - {last} {
          assert init[i] == es[i];
        }
      }
      DistinctBound(init, names - {last});
    }
  }

  /**
   * `r` is a ranking of the results `qs`: one entry per distinct lender of the
   * results and no other, each holding that lender's largest commission, listed
   * from the largest commission down. Lenders with equal commissions may come in
   * any order.
   */
  ghost predicate IsRanking(qs: seq<Quote>, r: seq<Entry>) {
    && NonIncreasing(r)
    && DistinctLenders(r)
    && (forall i :: 0 <= i < |r| ==> IsMaxFor(qs, r[i].lender, r[i].best))
    && (forall lender :: HasLender(qs, lender) ==> Listed(r, lender))
  }

  /** Group by lender, keep each lender's largest commission, sort descending. */
  function Rank(qs: seq<Quote>): (r: seq<Entry>)
    ensures IsRanking(qs, r)
  {
    var es := Group(qs);
    var r := SortDesc(es);
    PermutedMax(qs, es, r);
    PermutedListed(qs, es, r);
    PermutedDistinct(qs, es, r);
    r
  }

  /** Reordering entries keeps each one holding its lender's largest commission. */
  lemma PermutedMax(qs: seq<Quote>, es: seq<Entry>, r: seq<Entry>)
    requires multiset(r) == multiset(es)
    requires forall i :: 0 <= i < |es| ==> IsMaxFor(qs, es[i].lender, es[i].best)
    ensures forall i :: 0 <= i < |r| ==> IsMaxFor(qs, r[i].lender, r[i].best)
  {
    forall i | 0 <= i < |r| ensures IsMaxFor(qs, r[i].lender, r[i].best) {
      assert r[i] in multiset(r);
      var k :| 0 <= k < |es| && es[k] == r[i];
    }
  }

  /** Reordering entries keeps every lender listed. */
  lemma PermutedListed(qs: seq<Quote>, es: seq<Entry>, r: seq<Entry>)
    requires multiset(r) == multiset(es)
    requires forall lender :: HasLender(qs, lender) ==> Listed(es, lender)
    ensures forall lender :: HasLender(qs, lender) ==> Listed(r, lender)
  {
    forall lender | HasLender(qs, lender) ensures Listed(r, lender) {
      var k :| 0 <= k < |es| && es[k].lender == lender;
      assert es[k] in multiset(es);
      var i :| 0 <= i < |r| && r[i] == es[k];
    }
  }

  /**
   * Reordering entries of distinct lenders whose commissions are the largest
   * of their lender keeps the lenders distinct.
   */
  lemma PermutedDistinct(qs: seq<Quote>, es: seq<Entry>, r: seq<Entry>)
    requires multiset(r) == multiset(es) && DistinctLenders(es)
    requires forall i :: 0 <= i < |r| ==> IsMaxFor(qs, r[i].lender, r[i].best)
    ensures DistinctLenders(r)
  {
    forall i, j | 0 <= i < j < |r| ensures r[i].lender != r[j].lender {
      if r[i].lender == r[j].lender {
        MaxUnique(qs, r[i].lender, r[i].best, r[j].best);
        RepeatCount(r, i, j);
        DistinctCount(es, r[i]);
      }
    }
  }

  /**
   * The head of a ranking of non-empty results holds the largest commission of
   * all results, and it is the commission of one of them.
   */
  lemma RankingHead(qs: seq<Quote>, r: seq<Entry>)
    requires IsRanking(qs, r) && qs != []
    ensures r != []
    ensures forall j :: 0 <= j < |qs| ==> qs[j].commission <= r[0].best
    ensures exists j :: 0 <= j < |qs| && qs[j].lender == r[0].lender && qs[j].commission == r[0].best
  {
    assert HasLender(qs, qs[0].lender);
    forall j | 0 <= j < |qs| ensures qs[j].commission <= r[0].best {
      assert HasLender(qs, qs[j].lender);
      var i :| 0 <= i < |r| && r[i].lender == qs[j].lender;
      assert IsMaxFor(qs, r[i].lender, r[i].best);
    }
    assert IsMaxFor(qs, r[0].lender, r[0].best);
  }

  /** A lender has one largest commission. */
  lemma MaxUnique(qs: seq<Quote>, lender: string, m1: real, m2: real)
    requires IsMaxFor(qs, lender, m1) && IsMaxFor(qs, lender, m2)
    ensures m1 == m2
  {
  }

  /**
   * Two rankings of the same results hold the same entries: they can differ
   * only in the order of lenders with equal commissions.
   */
  lemma RankingsAgree(qs: seq<Quote>, r1: seq<Entry>, r2: seq<Entry>, e: Entry)
    requires IsRanking(qs, r1) && IsRanking(qs, r2)
    ensures e in r1 <==> e in r2
  {
    if e in r1 {
      SameEntry(qs, r1, r2, e);
    }
    if e in r2 {
      SameEntry(qs, r2, r1, e);
    }
  }

  lemma SameEntry(qs: seq<Quote>, r1: seq<Entry>, r2: seq<Entry>, e: Entry)
    requires IsRanking(qs, r1) && IsRanking(qs, r2) && e in r1
    ensures e in r2
  {
    var i :| 0 <= i < |r1| && r1[i] == e;
    var j :| 0 <= j < |qs| && qs[j].lender == e.lender && qs[j].commission == e.best;
    assert HasLender(qs, e.lender);
    var k :| 0 <= k < |r2| && r2[k].lender == e.lender;
    MaxUnique(qs, e.lender, e.best, r2[k].best);
  }

  /**
   * Results of exactly two lenders rank the lender with the larger best
   * commission first, whatever the order of the results.
   */
  lemma RankingOfTwo(qs: seq<Quote>, r: seq<Entry>, a: string, ma: real, b: string, mb: real)
    requires IsRanking(qs, r)
    requires a != b && forall i :: 0 <= i < |qs| ==> qs[i].lender in {a, b}
    requires IsMaxFor(qs, a, ma) && IsMaxFor(qs, b, mb) && ma > mb
    ensures r == [Entry(a, ma), Entry(b, mb)]
  {
    forall i | 0 <= i < |r| ensures r[i].lender in {a, b} {
      assert IsMaxFor(qs, r[i].lender, r[i].best);
    }
    DistinctBound(r, {a, b});
    assert HasLender(qs, a) && HasLender(qs, b);
    var ia :| 0 <= ia < |r| && r[ia].lender == a;
    var ib :| 0 <= ib < |r| && r[ib].lender == b;
    MaxUnique(qs, a, ma, r[ia].best);
    MaxUnique(qs, b, mb, r[ib].best);
    assert ia == 0 && ib == 1;
  }
}
