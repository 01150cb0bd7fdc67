/**
 * The calculation on rows of the lender table, for a PCP deal of £20,000.
 */
module Scenarios {
  import opened Wrappers
  import opened Text
  import opened Decimal
  import opened Lenders
  import opened Commission
  import opened Ranking
  import opened Pipeline

  /** Text without a character of `m` does not contain `m`. */
  lemma Lacks(s: string, m: string, k: nat)
    requires k < |m| && forall i :: 0 <= i < |s| ==> s[i] != m[k]
    ensures !Contains(s, m)
  {
    forall i: int ensures !OccursAt(s, m, i) {
      if 0 <= i && i + |m| <= |s| {
        assert s[i..i + |m|][k] == s[i + k];
      }
    }
  }

  lemma Text905()
    ensures ParseFloat("9.05") == Some(NumeralValue("9", "05"))
  {
    assert "9.05" == "9" + "." + "05";
    assert AllDigits("9") && AllDigits("05");
    PointNumeral("9", "05");
  }

  lemma Numeral905()
    ensures NumeralValue("9", "05") == 9.05
  {
    assert DigitsValue("05") == 5 by {
      assert "05"[..1] == "0";
    }
  }

  lemma Value905()
    ensures ParseFloat("9.05") == Some(9.05)
  {
    Text905();
    Numeral905();
  }

  lemma Text915()
    ensures ParseFloat("9.15") == Some(NumeralValue("9", "15"))
  {
    assert "9.15" == "9" + "." + "15";
    assert AllDigits("9") && AllDigits("15");
    PointNumeral("9", "15");
  }

  lemma Numeral915()
    ensures NumeralValue("9", "15") == 9.15
  {
    assert DigitsValue("15") == 15 by {
      assert "15"[..1] == "1";
    }
  }

  lemma Value915()
    ensures ParseFloat("9.15") == Some(9.15)
  {
    Text915();
    Numeral915();
  }

  lemma Text1115()
    ensures ParseFloat("11.15") == Some(NumeralValue("11", "15"))
  {
    assert "11.15" == "11" + "." + "15";
    assert AllDigits("11") && AllDigits("15");
    PointNumeral("11", "15");
  }

  lemma Numeral1115()
    ensures NumeralValue("11", "15") == 11.15
  {
    assert DigitsValue("11") == 11 by {
      assert "11"[..1] == "1";
    }
    assert DigitsValue("15") == 15 by {
      assert "15"[..1] == "1";
    }
  }

  lemma Value1115()
    ensures ParseFloat("11.15") == Some(11.15)
  {
    Text1115();
    Numeral1115();
  }

  lemma Text68()
    ensures ParseFloat("6.8") == Some(NumeralValue("6", "8"))
  {
    assert "6.8" == "6" + "." + "8";
    assert AllDigits("6") && AllDigits("8");
    PointNumeral("6", "8");
  }

  lemma Numeral68()
    ensures NumeralValue("6", "8") == 6.8
  {
  }

  lemma Value68()
    ensures ParseFloat("6.8") == Some(6.8)
  {
    Text68();
    Numeral68();
  }

  lemma Text515()
    ensures ParseFloat("5.15") == Some(NumeralValue("5", "15"))
  {
    assert "5.15" == "5" + "." + "15";
    assert AllDigits("5") && AllDigits("15");
    PointNumeral("5", "15");
  }

  lemma Numeral515()
    ensures NumeralValue("5", "15") == 5.15
  {
    assert DigitsValue("15") == 15 by {
      assert "15"[..1] == "1";
    }
  }

  lemma Value515()
    ensures ParseFloat("5.15") == Some(5.15)
  {
    Text515();
    Numeral515();
  }

  lemma Value4()
    ensures ParseFloat("4") == Some(4.0)
  {
    ParseWhole(4);
    assert NatDigits(4) == "4";
  }

  /** Santander's first band pays a flat 9.05%: 1,810 on £20,000, with no cap. */
  lemma SantanderPcp()
    ensures QuoteRow(Table[0], PCP, 20000) == Ok(Quote("Santander", "0-24,999", 9.05, 1810.0))
    ensures QuoteFor(PCP, 20000)(Table[0]) == Ok(FirstQuotes[0])
  {
    Lacks("9.05", "HP:", 0);
    Value905();
  }

  /** Santander's second band pays a flat 6.8%: 1,360 on £20,000. */
  lemma SantanderBand2()
    ensures QuoteRow(Table[1], PCP, 20000) == Ok(Quote("Santander", "25,000-39,999", 6.8, 1360.0))
    ensures QuoteFor(PCP, 20000)(Table[1]) == Ok(FirstQuotes[1])
  {
    SantanderRow1();
    Band2Rate();
    FlatAt(Table[1], 6.8, FirstQuotes[1]);
  }

  lemma Band2Rate()
    ensures !Contains(Table[1].commission, "HP:") && ParseFloat(Table[1].commission) == Some(6.8)
  {
    SantanderRow1();
    Lacks("6.8", "HP:", 0);
    Value68();
  }

  /** Santander's third band pays a flat 5.15%: 1,030 on £20,000. */
  lemma SantanderBand3()
    ensures QuoteRow(Table[2], PCP, 20000) == Ok(Quote("Santander", "40,000-49,999", 5.15, 1030.0))
    ensures QuoteFor(PCP, 20000)(Table[2]) == Ok(FirstQuotes[2])
  {
    SantanderRow2();
    Band3Rate();
    FlatAt(Table[2], 5.15, FirstQuotes[2]);
  }

  lemma Band3Rate()
    ensures !Contains(Table[2].commission, "HP:") && ParseFloat(Table[2].commission) == Some(5.15)
  {
    SantanderRow2();
    Lacks("5.15", "HP:", 0);
    Value515();
  }

  /** Santander's fourth band pays a flat 4%: 800 on £20,000. */
  lemma SantanderBand4()
    ensures QuoteRow(Table[3], PCP, 20000) == Ok(Quote("Santander", "50,000+", 4.0, 800.0))
    ensures QuoteFor(PCP, 20000)(Table[3]) == Ok(FirstQuotes[3])
  {
    SantanderRow3();
    Band4Rate();
    FlatAt(Table[3], 4.0, FirstQuotes[3]);
  }

  lemma Band4Rate()
    ensures !Contains(Table[3].commission, "HP:") && ParseFloat(Table[3].commission) == Some(4.0)
  {
    SantanderRow3();
    Lacks("4", "HP:", 0);
    Value4();
  }

  lemma SantanderRow1()
    ensures Table[1] == Row("Santander", "25,000-39,999", "HP,LP,PCP", AprRate(11.9), "6.8", None, true)
  {
  }

  lemma SantanderRow2()
    ensures Table[2] == Row("Santander", "40,000-49,999", "HP,LP,PCP", AprRate(10.9), "5.15", None, true)
  {
  }

  lemma SantanderRow3()
    ensures Table[3] == Row("Santander", "50,000+", "HP,LP,PCP", AprRate(9.9), "4", None, true)
  {
  }

  /** A row whose text is a plain number and not dual-rate is quoted at that number. */
  lemma FlatAt(row: Row, rate: real, q: Quote)
    requires !Contains(row.commission, "HP:") && ParseFloat(row.commission) == Some(rate)
    requires q == Quote(row.lender, row.band, rate, CommissionOn(rate, 20000, row.cap))
    ensures QuoteRow(row, PCP, 20000) == Ok(q)
    ensures QuoteFor(PCP, 20000)(row) == Ok(q)
  {
  }

  /** The commission text of ZOPA's first band. */
  const ZopaRates := "HP:9.15 PCP:11.15"

  lemma ZopaIsDual(p: Product)
    requires p != LP
    ensures IsDualRate(ZopaRates, p)
  {
    assert OccursAt(ZopaRates, "HP:", 0);
  }

  /** For PCP the rate is the word after "PCP:", 11.15. */
  lemma ZopaPcpRate()
    ensures ResolveRate(ZopaRates, PCP) == Ok(11.15)
  {
    ZopaIsDual(PCP);
    var pre := "HP:9.15 ";
    assert ZopaRates == pre + Marker(PCP) + ("" + "11.15" + "");
    forall j | 0 <= j < |pre| ensures !OccursAt(ZopaRates, Marker(PCP), j) {
      assert ZopaRates[j..j + 4][0] == ZopaRates[j];
      assert ZopaRates[j..j + 4][1] == ZopaRates[j + 1];
    }
    assert NoSpace("11.15");
    DualRateWord(ZopaRates, PCP, pre, "", "11.15", "");
    Value1115();
  }

  /** For HP the rate is the word after the first "HP:", 9.15. */
  lemma ZopaHpRate()
    ensures ResolveRate(ZopaRates, HP) == Ok(9.15)
  {
    ZopaIsDual(HP);
    assert ZopaRates == "" + Marker(HP) + ("" + "9.15" + " PCP:11.15");
    assert NoSpace("9.15");
    DualRateWord(ZopaRates, HP, "", "", "9.15", " PCP:11.15");
    Value915();
  }

  /** For LP the text is read as a plain number, which it is not, so the rate is 0. */
  lemma ZopaLpRate()
    ensures ResolveRate(ZopaRates, LP) == Ok(0.0)
  {
    NotANumber(ZopaRates, 2);
  }

  /** A row whose rate resolves is quoted at that rate, clamped by its cap. */
  lemma QuoteAt(row: Row, p: Product, amount: nat, rate: real)
    requires ResolveRate(row.commission, p) == Ok(rate)
    ensures QuoteRow(row, p, amount) == Ok(Quote(row.lender, row.band, rate, CommissionOn(rate, amount, row.cap)))
  {
  }

  lemma ZopaRow()
    ensures Table[4] == Row("ZOPA", "0-24,999", "HP,PCP", AprRate(12.9), ZopaRates, Some(3000.0), true)
  {
  }

  /** ZOPA's first band at PCP: 11.15% of £20,000 is 2,230, under the 3,000 cap. */
  lemma ZopaPcp()
    ensures QuoteRow(Table[4], PCP, 20000) == Ok(Quote("ZOPA", "0-24,999", 11.15, 2230.0))
    ensures QuoteFor(PCP, 20000)(Table[4]) == Ok(FirstQuotes[4])
  {
    ZopaRow();
    ZopaPcpRate();
    QuoteAt(Table[4], PCP, 20000, 11.15);
    assert CommissionOn(11.15, 20000, Some(3000.0)) == 2230.0;
  }

  /** Whitespace between the marker and the number is skipped: "HP: 9.15" gives 9.15 for HP. */
  lemma SpacedMarker()
    ensures ResolveRate("HP: 9.15", HP) == Ok(9.15)
  {
    var spec := "HP: 9.15";
    assert OccursAt(spec, "HP:", 0);
    assert spec == "" + Marker(HP) + (" " + "9.15" + "");
    assert NoSpace("9.15");
    DualRateWord(spec, HP, "", " ", "9.15", "");
    Value915();
  }

  /** A dual-rate text without the requested product's marker raises IndexError. */
  lemma MissingPcpMarker()
    ensures ResolveRate("HP:9.15", PCP) == Raise(IndexError)
  {
    assert OccursAt("HP:9.15", "HP:", 0);
    Lacks("HP:9.15", Marker(PCP), 1);
    MissingMarker("HP:9.15", PCP);
  }

  /** The first five rows of the table: Santander's four bands and ZOPA's first band. */
  const FirstRows := Table[..5]

  /** Their results for a PCP deal of £20,000, in table order. */
  const FirstQuotes := [
    Quote("Santander", "0-24,999", 9.05, 1810.0),
    Quote("Santander", "25,000-39,999", 6.8, 1360.0),
    Quote("Santander", "40,000-49,999", 5.15, 1030.0),
    Quote("Santander", "50,000+", 4.0, 800.0),
    Quote("ZOPA", "0-24,999", 11.15, 2230.0)
  ]

  /** All five rows offer PCP and are favourites, so both filters keep them all. */
  lemma FirstRowsEligible()
    ensures Eligible(FirstRows, PCP, false) == FirstRows
  {
    assert OccursAt("HP,LP,PCP", "PCP", 6);
    assert OccursAt("HP,PCP", "PCP", 3);
    SantanderRow1();
    SantanderRow2();
    SantanderRow3();
    ZopaRow();
    EligibleAll(FirstRows, PCP, false);
  }

  /** The loop over the five rows yields the five results in table order. */
  lemma FirstRowsQuotes()
    ensures Quotes(FirstRows, PCP, 20000) == Ok(FirstQuotes)
  {
    SantanderPcp();
    SantanderBand2();
    SantanderBand3();
    SantanderBand4();
    ZopaPcp();
    CollectFive(Table, QuoteFor(PCP, 20000), FirstQuotes);
  }

  /** Five elements each yielding a value give those five values, in order. */
  lemma CollectFive(rows: seq<Row>, f: Row -> Outcome<Quote>, qs: seq<Quote>)
    requires |rows| >= 5 && |qs| == 5
    requires f(rows[0]) == Ok(qs[0]) && f(rows[1]) == Ok(qs[1]) && f(rows[2]) == Ok(qs[2])
    requires f(rows[3]) == Ok(qs[3]) && f(rows[4]) == Ok(qs[4])
    ensures Collect(rows[..5], f) == Ok(qs)
  {
    forall i | 0 <= i < 5 ensures f(rows[..5][i]) == Ok(qs[i]) {
      assert rows[..5][i] == rows[i];
    }
    CollectAll(rows[..5], f, qs);
  }

  /** Santander's largest commission among the five results is 1,810. */
  lemma SantanderBest()
    ensures IsMaxFor(FirstQuotes, "Santander", 1810.0)
  {
    assert FirstQuotes[0].lender == "Santander";
  }

  /** ZOPA's largest commission among the five results is 2,230. */
  lemma ZopaBest()
    ensures IsMaxFor(FirstQuotes, "ZOPA", 2230.0)
  {
    assert FirstQuotes[4].lender == "ZOPA";
  }

  /** Only Santander and ZOPA have results among the five. */
  lemma FirstLenders()
    ensures forall i :: 0 <= i < |FirstQuotes| ==> FirstQuotes[i].lender in {"Santander", "ZOPA"}
  {
  }

  /**
   * Every ranking of the five results lists ZOPA first with 2,230 and
   * Santander second with 1,810.
   */
  lemma FirstRowsRanking(r: seq<Entry>)
    requires IsRanking(FirstQuotes, r)
    ensures r == [Entry("ZOPA", 2230.0), Entry("Santander", 1810.0)]
  {
    SantanderBest();
    ZopaBest();
    FirstLenders();
    RankingOfTwo(FirstQuotes, r, "ZOPA", 2230.0, "Santander", 1810.0);
  }

  /**
   * The calculation on the first five rows for a PCP deal of £20,000: five
   * results, and ZOPA ranked above Santander.
   */
  lemma FirstRowsRecommendation()
    ensures Recommend(FirstRows, PCP, 20000, false)
      == Ok(Recommendation(FirstQuotes, [Entry("ZOPA", 2230.0), Entry("Santander", 1810.0)]))
  {
    FirstRowsEligible();
    FirstRowsQuotes();
    FirstRowsRanking(Rank(FirstQuotes));
  }
}
