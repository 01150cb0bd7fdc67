/**
 * The calculation over the whole built-in lender table: whatever product,
 * amount and favourite setting is chosen, no row raises, so the tool always
 * reaches a ranking.
 */
module WholeTable {
  import opened Wrappers
  import opened Text
  import opened Decimal
  import opened Lenders
  import opened Commission
  import opened Pipeline

  /** A text with no colon in it. */
  predicate ColonFree(s: string) {
    forall k :: 0 <= k < |s| ==> s[k] != ':'
  }

  /** A rate word of a dual-rate text: one word, no colon, and a number. */
  predicate RateWord(w: string) {
    && w != [] && NoSpace(w)
    && ColonFree(w)
    && ParseFloat(w).Some?
  }

  /** "HP:<a> PCP:<b>" takes the dual-rate branch for HP and PCP. */
  lemma DualIsDual(a: string, b: string, p: Product)
    requires p != LP
    ensures IsDualRate("HP:" + a + " PCP:" + b, p)
  {
    var spec := "HP:" + a + " PCP:" + b;
    assert spec[0..3] == "HP:";
    assert OccursAt(spec, "HP:", 0);
  }

  /** For HP the word after the leading "HP:" of "HP:<a> PCP:<b>" is `a`. */
  lemma DualHp(a: string, b: string)
    requires RateWord(a) && RateWord(b)
    ensures ResolveRate("HP:" + a + " PCP:" + b, HP) == Ok(ParseFloat(a).value)
  {
    var spec := "HP:" + a + " PCP:" + b;
    DualIsDual(a, b, HP);
    HpPieces(a, b);
    DualRateWord(spec, HP, "", "", a, " PCP:" + b);
  }

  /** The text cut at the HP marker. */
  lemma HpPieces(a: string, b: string)
    ensures "HP:" + a + " PCP:" + b == "" + Marker(HP) + ("" + a + (" PCP:" + b))
  {
  }

  /** For PCP the only colon before "PCP:" is the one of "HP:", so the word is `b`. */
  lemma DualPcp(a: string, b: string)
    requires RateWord(a) && RateWord(b)
    ensures ResolveRate("HP:" + a + " PCP:" + b, PCP) == Ok(ParseFloat(b).value)
  {
    var spec := "HP:" + a + " PCP:" + b;
    var pre := "HP:" + a + " ";
    DualIsDual(a, b, PCP);
    PcpPieces(a, b);
    NoPcpBefore(a, b);
    DualRateWord(spec, PCP, pre, "", b, "");
  }

  /** The text cut at the PCP marker. */
  lemma PcpPieces(a: string, b: string)
    ensures "HP:" + a + " PCP:" + b == ("HP:" + a + " ") + Marker(PCP) + ("" + b + "")
  {
  }

  /** No "PCP:" starts inside "HP:<a> " when `a` has no colon. */
  lemma NoPcpBefore(a: string, b: string)
    requires ColonFree(a)
    ensures forall j :: 0 <= j < |"HP:" + a + " "| ==> !OccursAt("HP:" + a + " PCP:" + b, Marker(PCP), j)
  {
    var spec := "HP:" + a + " PCP:" + b;
    forall j | 0 <= j < |a| + 4 ensures !OccursAt(spec, Marker(PCP), j) {
      if j + 4 <= |spec| {
        assert spec[j..j + 4][3] == spec[j + 3];
        if j < |a| {
          assert spec[j + 3] == a[j];
        } else {
          assert spec[j + 3] == (" PCP:" + b)[j - |a|];
        }
      }
    }
  }

  /** A numeral "<w>.<z>" with digits on both sides is a rate word. */
  lemma PointWord(w: string, z: string)
    requires w != [] && AllDigits(w) && AllDigits(z)
    ensures RateWord(w + "." + z)
  {
    PointNumeral(w, z);
    PointChars(w, z);
  }

  /** Digits and a point hold neither whitespace nor a colon. */
  lemma PointChars(w: string, z: string)
    requires AllDigits(w) && AllDigits(z)
    ensures NoSpace(w + "." + z) && ColonFree(w + "." + z)
  {
    var s := w + "." + z;
    forall i | 0 <= i < |s| ensures !IsSpace(s[i]) && s[i] != ':' {
      if i < |w| {
        assert s[i] == w[i];
      } else if i > |w| {
        assert s[i] == z[i - |w| - 1];
      }
    }
  }

  /** A text "HP:<hp>.15 PCP:<pcp>.15" resolves for HP and PCP. */
  lemma ZopaRow(p: Product, s: string, hp: string, pcp: string)
    requires p != LP
    requires hp != [] && AllDigits(hp) && pcp != [] && AllDigits(pcp)
    requires s == "HP:" + (hp + "." + "15") + " PCP:" + (pcp + "." + "15")
    ensures ResolveRate(s, p).Ok?
  {
    PointWord(hp, "15");
    PointWord(pcp, "15");
    ZopaText(p, hp + "." + "15", pcp + "." + "15");
  }

  /** ZOPA's three rows, "HP:9.15 PCP:11.15", "HP:7.15 PCP:9.15" and "HP:5.15 PCP:7.15". */
  lemma Zopa4(p: Product)
    requires p != LP
    ensures ResolveRate(Table[4].commission, p).Ok?
  {
    ZopaRow(p, Table[4].commission, "9", "11");
  }

  lemma Zopa5(p: Product)
    requires p != LP
    ensures ResolveRate(Table[5].commission, p).Ok?
  {
    ZopaRow(p, Table[5].commission, "7", "9");
  }

  lemma Zopa6(p: Product)
    requires p != LP
    ensures ResolveRate(Table[6].commission, p).Ok?
  {
    ZopaRow(p, Table[6].commission, "5", "7");
  }

  /** Both of a dual-rate text's products resolve. */
  lemma ZopaText(p: Product, a: string, b: string)
    requires p != LP && RateWord(a) && RateWord(b)
    ensures ResolveRate("HP:" + a + " PCP:" + b, p).Ok?
  {
    if p == HP {
      DualHp(a, b);
    } else {
      DualPcp(a, b);
    }
  }

  /** Every commission text of the table other than ZOPA's three has no colon. */
  lemma FlatRow(i: int)
    requires 0 <= i < |Table| && !(4 <= i <= 6)
    ensures ColonFree(Table[i].commission)
  {
  }

  /** A text without a colon does not take the dual-rate branch, so its rate resolves. */
  lemma Flat(s: string, p: Product)
    requires ColonFree(s)
    ensures !IsDualRate(s, p)
    ensures ResolveRate(s, p).Ok?
  {
    forall i: int ensures !OccursAt(s, "HP:", i) {
      if 0 <= i && i + 3 <= |s| {
        assert s[i..i + 3][2] == s[i + 2];
        assert "HP:"[2] == ':';
      }
    }
  }

  /** The rate of every row of the table resolves, for every product. */
  lemma TableRates(p: Product)
    ensures forall i :: 0 <= i < |Table| ==> ResolveRate(Table[i].commission, p).Ok?
  {
    forall i | 0 <= i < |Table| ensures ResolveRate(Table[i].commission, p).Ok? {
      if p == LP {
        LpRate(Table[i].commission);
      } else if i == 4 {
        Zopa4(p);
      } else if i == 5 {
        Zopa5(p);
      } else if i == 6 {
        Zopa6(p);
      } else {
        FlatRow(i);
        Flat(Table[i].commission, p);
      }
    }
  }

  /** For LP no text takes the dual-rate branch. */
  lemma LpRate(s: string)
    ensures ResolveRate(s, LP).Ok?
  {
    assert !IsDualRate(s, LP);
  }

  /**
   * The calculation over the built-in table never raises: for every product,
   * amount and favourite setting it reaches a ranking of every eligible row.
   */
  lemma TableNeverRaises(p: Product, amount: nat, showLeastFav: bool)
    ensures Recommend(Table, p, amount, showLeastFav).Ok?
    ensures |Recommend(Table, p, amount, showLeastFav).value.quotes| == |Eligible(Table, p, showLeastFav)|
  {
    TableRates(p);
    ResolvedRatesRank(Table, p, amount, showLeastFav);
  }
}
