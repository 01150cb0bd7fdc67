/**
 * The commission loop: for each remaining row, resolve the commission
 * percentage for the chosen product, take that percentage of the deal amount,
 * clamp it by the row's cap, and append one result row.
 */
module Commission {
  import opened Wrappers
  import opened Text
  import opened Decimal
  import opened Lenders

  /** One row of the results table: lender, advance band, rate and commission. */
  datatype Quote = Quote(lender: string, band: string, rate: real, commission: real)

  /** The "<product>:" marker that opens a product's rate in a dual-rate string. */
  function Marker(p: Product): string {
    Code(p) + ":"
  }

  /** The loop's branch condition: the text holds "HP:" and the product is HP or PCP. */
  predicate IsDualRate(spec: string, p: Product) {
    Contains(spec, "HP:") && p != LP
  }

  /**
   * The commission percentage of a row for product `p`. A dual-rate string is
   * split on the product's marker and the first word after the marker is
   * converted; a missing marker or an empty remainder raises IndexError, a word
   * that is not a number raises ValueError. Any other text is converted as a
   * whole, and text that is not a number gives 0.
   */
  function ResolveRate(spec: string, p: Product): (r: Outcome<real>)
    ensures r.Raise? ==> IsDualRate(spec, p)
  {
    if IsDualRate(spec, p) then
      var fields := Split(spec, Marker(p));
      if |fields| < 2 then Raise(IndexError)
      else
        var words := Words(fields[1]);
        if words == [] then Raise(IndexError)
        else
          match ParseFloat(words[0])
          case None => Raise(ValueError)
          case Some(v) => Ok(v)
    else
      Ok(ParseFloat(spec).GetOr(0.0))
  }

  /** Text that does not take the dual-rate branch never raises: it is read as a number, or as 0. */
  lemma FlatRate(spec: string, p: Product)
    requires !IsDualRate(spec, p)
    ensures ParseFloat(spec).Some? ==> ResolveRate(spec, p) == Ok(ParseFloat(spec).value)
    ensures ParseFloat(spec).None? ==> ResolveRate(spec, p) == Ok(0.0)
  {
  }

  /** A dual-rate string without the requested product's marker raises IndexError. */
  lemma MissingMarker(spec: string, p: Product)
    requires IsDualRate(spec, p) && !Contains(spec, Marker(p))
    ensures ResolveRate(spec, p) == Raise(IndexError)
  {
    SplitSingle(spec, Marker(p));
  }

  /** The characters of a marker: no whitespace, and a colon only at the end. */
  lemma MarkerChars(p: Product)
    requires p != LP
    ensures |Marker(p)| >= 2 && Marker(p)[|Marker(p)| - 1] == ':'
    ensures forall i :: 0 <= i < |Marker(p)| ==> !IsSpace(Marker(p)[i])
    ensures forall i :: 0 <= i < |Marker(p)| - 1 ==> Marker(p)[i] != ':'
  {
  }

  /**
   * The first piece of a split is the text up to the first occurrence of the
   * separator, or all of it.
   */
  lemma SplitHead(s: string, sep: string) returns (k: nat)
    requires sep != []
    ensures k <= |s| && Split(s, sep)[0] == s[..k]
    ensures k < |s| ==> OccursAt(s, sep, k)
    ensures forall j :: 0 <= j < k ==> !OccursAt(s, sep, j)
  {
    var r := IndexFrom(s, sep, 0);
    if r.Some? {
      k := r.value;
      SplitUnfold(s, sep, k);
    } else {
      k := |s|;
      assert s[..k] == s;
    }
  }

  /**
   * A marker cannot start inside a word that holds neither whitespace nor a
   * colon and is followed by whitespace or the end of the text.
   */
  lemma NoMarkerInWord(p: Product, word: string, post: string, j: nat)
    requires p != LP
    requires NoSpace(word) && forall i :: 0 <= i < |word| ==> word[i] != ':'
    requires post == [] || IsSpace(post[0])
    requires j < |word|
    ensures !OccursAt(word + post, Marker(p), j)
  {
    var m := Marker(p);
    var rest := word + post;
    MarkerChars(p);
    if j + |m| <= |rest| {
      var last := j + |m| - 1;
      if last < |word| {
        assert rest[j..j + |m|][|m| - 1] == word[last];
      } else {
        assert rest[j..j + |m|][|word| - j] == post[0];
        assert !IsSpace(m[|word| - j]);
      }
    }
  }

  /**
   * When the first marker is followed by optional whitespace and then a word
   * free of whitespace and colons that ends at whitespace or at the end of the
   * text, the split has a piece after the marker and that word opens it.
   */
  lemma WordAfterMarker(spec: string, p: Product, pre: string, ws: string, word: string, post: string)
    requires p != LP
    requires spec == pre + Marker(p) + (ws + word + post)
    requires forall j :: 0 <= j < |pre| ==> !OccursAt(spec, Marker(p), j)
    requires forall i :: 0 <= i < |ws| ==> IsSpace(ws[i])
    requires word != [] && NoSpace(word) && forall i :: 0 <= i < |word| ==> word[i] != ':'
    requires post == [] || IsSpace(post[0])
    ensures |Split(spec, Marker(p))| >= 2
    ensures Words(Split(spec, Marker(p))[1]) != [] && Words(Split(spec, Marker(p))[1])[0] == word
  {
    SplitAtFirst(spec, Marker(p), pre, ws + word + post);
    HeadWord(p, ws, word, post);
  }

  /** The first piece of `ws + word + post` split on a marker has `word` as its first word. */
  lemma HeadWord(p: Product, ws: string, word: string, post: string)
    requires p != LP
    requires forall i :: 0 <= i < |ws| ==> IsSpace(ws[i])
    requires word != [] && NoSpace(word) && forall i :: 0 <= i < |word| ==> word[i] != ':'
    requires post == [] || IsSpace(post[0])
    ensures Words(Split(ws + word + post, Marker(p))[0]) != []
    ensures Words(Split(ws + word + post, Marker(p))[0])[0] == word
  {
    var k := HeadEnd(p, ws, word, post);
    PieceWords(ws, word, post, k);
  }

  /** The first piece of the split reaches at least past the word. */
  lemma HeadEnd(p: Product, ws: string, word: string, post: string) returns (k: nat)
    requires p != LP
    requires forall i :: 0 <= i < |ws| ==> IsSpace(ws[i])
    requires word != [] && NoSpace(word) && forall i :: 0 <= i < |word| ==> word[i] != ':'
    requires post == [] || IsSpace(post[0])
    ensures |ws| + |word| <= k <= |ws + word + post|
    ensures Split(ws + word + post, Marker(p))[0] == (ws + word + post)[..k]
  {
    NoMarkerBefore(p, ws, word, post);
    k := SplitHead(ws + word + post, Marker(p));
  }

  /** A prefix of `ws + word + post` that holds the word has it as its first word. */
  lemma PieceWords(ws: string, word: string, post: string, k: nat)
    requires forall i :: 0 <= i < |ws| ==> IsSpace(ws[i])
    requires word != [] && NoSpace(word)
    requires post == [] || IsSpace(post[0])
    requires |ws| + |word| <= k <= |ws + word + post|
    ensures Words((ws + word + post)[..k]) == [word] + Words(post[..k - |ws| - |word|])
  {
    var after := post[..k - |ws| - |word|];
    assert (ws + word + post)[..k] == ws + (word + after);
    LeadingWord(ws, word, after);
  }

  /** No marker starts in the whitespace or in the word. */
  lemma NoMarkerBefore(p: Product, ws: string, word: string, post: string)
    requires p != LP
    requires forall i :: 0 <= i < |ws| ==> IsSpace(ws[i])
    requires word != [] && NoSpace(word) && forall i :: 0 <= i < |word| ==> word[i] != ':'
    requires post == [] || IsSpace(post[0])
    ensures forall j :: 0 <= j < |ws| + |word| ==> !OccursAt(ws + word + post, Marker(p), j)
  {
    var m := Marker(p);
    var rest := ws + word + post;
    MarkerChars(p);
    forall j | 0 <= j < |ws| + |word| ensures !OccursAt(rest, m, j) {
      if j < |ws| {
        assert rest[j] == ws[j];
        if j + |m| <= |rest| {
          assert rest[j..j + |m|][0] == rest[j];
        }
      } else {
        assert rest[|ws|..] == word + post;
        OccursInSuffix(rest, m, |ws|, j - |ws|);
        NoMarkerInWord(p, word, post, j - |ws|);
      }
    }
  }

  /**
   * In that case the rate is the word read by `float`, and ValueError when
   * the word is not a number.
   */
  lemma DualRateWord(spec: string, p: Product, pre: string, ws: string, word: string, post: string)
    requires IsDualRate(spec, p)
    requires spec == pre + Marker(p) + (ws + word + post)
    requires forall j :: 0 <= j < |pre| ==> !OccursAt(spec, Marker(p), j)
    requires forall i :: 0 <= i < |ws| ==> IsSpace(ws[i])
    requires word != [] && NoSpace(word) && forall i :: 0 <= i < |word| ==> word[i] != ':'
    requires post == [] || IsSpace(post[0])
    ensures ParseFloat(word).Some? ==> ResolveRate(spec, p) == Ok(ParseFloat(word).value)
    ensures ParseFloat(word).None? ==> ResolveRate(spec, p) == Raise(ValueError)
  {
    WordAfterMarker(spec, p, pre, ws, word, post);
  }

  /** The cap that takes effect: a cap of 0 is falsy and counts as no cap. */
  function EffectiveCap(cap: Option<real>): (c: Option<real>)
    ensures c.Some? <==> cap.Some? && cap.value != 0.0
    ensures c.Some? ==> c == cap
  {
    if cap.Some? && cap.value != 0.0 then cap else None
  }

  /** Python's `min(amount, cap)` when a cap takes effect, `amount` otherwise. */
  function Clamp(amount: real, cap: Option<real>): (r: real)
    ensures r <= amount
    ensures EffectiveCap(cap).Some? ==> r <= cap.value && (r == amount || r == cap.value)
    ensures EffectiveCap(cap).None? ==> r == amount
  {
    match EffectiveCap(cap)
    case None => amount
    case Some(c) => if c < amount then c else amount
  }

  /** Clamping a clamped amount by the same cap changes nothing. */
  lemma ClampIdempotent(amount: real, cap: Option<real>)
    ensures Clamp(Clamp(amount, cap), cap) == Clamp(amount, cap)
  {
  }

  /** `rate` percent of `amount`: `(rate / 100) * amount`. */
  function PercentOf(rate: real, amount: nat): (r: real)
    ensures r * 100.0 == rate * amount as real
    ensures 0.0 <= rate ==> 0.0 <= r
  {
    rate / 100.0 * amount as real
  }

  /** A non-negative rate earns a non-negative amount, and the amount grows with the rate. */
  lemma PercentOfMonotone(rate1: real, rate2: real, amount: nat)
    requires 0.0 <= rate1 <= rate2
    ensures 0.0 <= PercentOf(rate1, amount) <= PercentOf(rate2, amount)
  {
  }

  /** The commission on `amount` at `rate` percent, clamped by `cap`. */
  function CommissionOn(rate: real, amount: nat, cap: Option<real>): (c: real)
    ensures c <= PercentOf(rate, amount)
    ensures EffectiveCap(cap).Some? ==> c <= cap.value
    ensures EffectiveCap(cap).None? ==> c == PercentOf(rate, amount)
    ensures EffectiveCap(cap).Some? ==>
      c == (if cap.value < PercentOf(rate, amount) then cap.value else PercentOf(rate, amount))
  {
    Clamp(PercentOf(rate, amount), cap)
  }

  /**
   * The result row one table row yields, or the exception resolving its rate
   * raises. A result carries the lender and band of its table row unchanged
   * and the resolved rate; its commission is the rate's percentage of the
   * amount, or the smaller of that and an effective cap.
   */
  function QuoteRow(row: Row, p: Product, amount: nat): (r: Outcome<Quote>)
    ensures r.Raise? <==> ResolveRate(row.commission, p).Raise?
    ensures r.Ok? ==>
      var pct := PercentOf(r.value.rate, amount);
      && r.value.lender == row.lender && r.value.band == row.band
      && r.value.rate == ResolveRate(row.commission, p).value
      && r.value.commission <= pct
      && (EffectiveCap(row.cap).None? ==> r.value.commission == pct)
      && (EffectiveCap(row.cap).Some? ==>
            r.value.commission == if row.cap.value < pct then row.cap.value else pct)
  {
    match ResolveRate(row.commission, p)
    case Raise(e) => Raise(e)
    case Ok(rate) => Ok(Quote(row.lender, row.band, rate, CommissionOn(rate, amount, row.cap)))
  }

  /** The loop body as a function of the row, for a fixed product and amount. */
  function QuoteFor(p: Product, amount: nat): Row -> Outcome<Quote> {
    (row: Row) => QuoteRow(row, p, amount)
  }

  /** The results of the loop over `rows`: one per row in row order, or the first exception. */
  function Quotes(rows: seq<Row>, p: Product, amount: nat): (r: Outcome<seq<Quote>>)
    ensures r.Ok? ==> |r.value| == |rows|
    ensures rows == [] ==> r == Ok([])
  {
    Collect(rows, QuoteFor(p, amount))
  }

  /**
   * A run of the loop that succeeds holds one result per row, in row order,
   * each carrying its row's lender and band and being that row's result; the
   * run succeeds exactly when no row's rate raises, so it always succeeds for
   * LP, where no text takes the dual-rate branch.
   */
  lemma QuotesOk(rows: seq<Row>, p: Product, amount: nat)
    ensures Quotes(rows, p, amount).Ok? <==> forall i :: 0 <= i < |rows| ==> ResolveRate(rows[i].commission, p).Ok?
    ensures p == LP ==> Quotes(rows, p, amount).Ok?
    ensures Quotes(rows, p, amount).Ok? ==>
      var qs := Quotes(rows, p, amount).value;
      && |qs| == |rows|
      && forall i :: 0 <= i < |rows| ==>
        qs[i].lender == rows[i].lender && qs[i].band == rows[i].band && QuoteRow(rows[i], p, amount) == Ok(qs[i])
  {
    var f := QuoteFor(p, amount);
    CollectOk(rows, f);
    forall i | 0 <= i < |rows|
      ensures f(rows[i]).Ok? <==> ResolveRate(rows[i].commission, p).Ok?
      ensures f(rows[i]).Ok? ==> f(rows[i]).value.lender == rows[i].lender && f(rows[i]).value.band == rows[i].band
    {
    }
  }

  /**
   * The results loop: walks the rows in order and appends each row's result;
   * an exception ends the loop and escapes.
   */
  method Calculate(rows: seq<Row>, p: Product, amount: nat) returns (r: Outcome<seq<Quote>>)
    ensures r == Quotes(rows, p, amount)
    ensures r.Ok? ==> |r.value| == |rows|
    ensures r.Ok? ==> forall i :: 0 <= i < |rows| ==>
      r.value[i].lender == rows[i].lender && r.value[i].band == rows[i].band
      && QuoteRow(rows[i], p, amount) == Ok(r.value[i])
  {
    var results: seq<Quote> := [];
    var i := 0;
    while i < |rows|
      invariant 0 <= i <= |rows|
      invariant Quotes(rows[..i], p, amount) == Ok(results)
    {
      var q := QuoteFor(p, amount)(rows[i]);
      if q.Raise? {
        CollectStepRaise(rows, QuoteFor(p, amount), i, q.error);
        return Raise(q.error);
      }
      CollectStep(rows, QuoteFor(p, amount), i, results, q.value);
      results := results + [q.value];
      i := i + 1;
    }
    assert rows[..i] == rows;
    r := Ok(results);
    QuotesOk(rows, p, amount);
  }
}
