/**
 * services/currency_service.py: resolving currencies against the Central Bank
 * of Russia's daily table, converting amounts through roubles, and the order
 * in which `format_rates` lists the table.
 *
 * Amounts and rates are exact reals; the XML fetch and parse are outside the
 * model, so the table arrives as a parameter (`None` when the fetch failed).
 */
module CurrencyService {
  import opened Basics
  import opened Text
  import opened Sorting

  /** One `<Valute>` of the daily table: value in roubles per `nominal` units. */
  datatype Rate = Rate(code: string, name: string, value: real, nominal: int)

  function Codes(table: seq<Rate>): (r: seq<string>)
    ensures |r| == |table|
    ensures forall i :: 0 <= i < |table| ==> r[i] == table[i].code
  {
    seq(|table|, i requires 0 <= i < |table| => table[i].code)
  }

  /** A dict keyed by char code: no code twice. */
  predicate WellKeyed(table: seq<Rate>) {
    Unique(Codes(table))
  }

  /** `rates[code]`. */
  function Lookup(table: seq<Rate>, code: string): (r: Option<Rate>)
    ensures r.Some? <==> code in Codes(table)
    ensures r.Some? ==> r.value in table && r.value.code == code
  {
    if |table| == 0 then None
    else if table[0].code == code then Some(table[0])
    else
      assert Codes(table) == [table[0].code] + Codes(table[1..]);
      Lookup(table[1..], code)
  }

  /** `PRIORITY_CURRENCIES`. */
  const Priority: seq<string> := ["USD", "EUR", "GBP", "JPY", "CHF", "CNY", "UAH"]

  /** A currency's rouble rate: Python's float division, which raises on a zero divisor. */
  datatype Resolved = Known(rate: real) | Unknown | DivisionByZero

  /**
   * The `from_rate` / `to_rate` step of `convert`: RUB is 1 without looking at
   * the table; any other code present resolves to value/nominal; a missing
   * code makes `convert` return `None`.
   */
  function RateOf(table: seq<Rate>, code: string): (r: Resolved)
    ensures code == "RUB" ==> r == Known(1.0)
    ensures code != "RUB" && code !in Codes(table) ==> r == Unknown
    ensures code != "RUB" && code in Codes(table) ==>
      var e := Lookup(table, code).value;
      if e.nominal == 0 then r == DivisionByZero else r == Known(e.value / e.nominal as real)
  {
    if code == "RUB" then Known(1.0)
    else match Lookup(table, code)
      case None => Unknown
      case Some(e) => if e.nominal == 0 then DivisionByZero else Known(e.value / e.nominal as real)
  }

  /** What `convert` returns, or that it raised (a zero nominal or a zero target rate). */
  datatype Conversion = Amount(value: real) | NoConversion | Raised

  /**
   * `convert(amount, from, to)`: both codes are upper-cased, an empty or
   * missing table gives `None`, and the result is amount * from_rate / to_rate.
   */
  function Convert(rates: Option<seq<Rate>>, amount: real, from: string, to: string): (r: Conversion)
    ensures rates.None? || (rates.Some? && |rates.value| == 0) ==> r == NoConversion
    ensures r.Amount? ==>
      && rates.Some?
      && RateOf(rates.value, Upper(from)).Known?
      && RateOf(rates.value, Upper(to)).Known?
      && RateOf(rates.value, Upper(to)).rate != 0.0
      && r.value == Scale(amount, RateOf(rates.value, Upper(from)).rate, RateOf(rates.value, Upper(to)).rate)
    ensures rates.Some? && |rates.value| > 0 && RateOf(rates.value, Upper(from)) == Unknown ==> r == NoConversion
    ensures r == NoConversion <==>
      || rates.None? || |rates.value| == 0
      || RateOf(rates.value, Upper(from)) == Unknown
      || (RateOf(rates.value, Upper(from)).Known? && RateOf(rates.value, Upper(to)) == Unknown)
    ensures r == Raised <==>
      && rates.Some? && |rates.value| > 0
      && (|| RateOf(rates.value, Upper(from)) == DivisionByZero
          || (&& RateOf(rates.value, Upper(from)).Known?
              && (RateOf(rates.value, Upper(to)) == DivisionByZero || RateOf(rates.value, Upper(to)) == Known(0.0))))
  {
    if rates.None? || |rates.value| == 0 then NoConversion
    else
      var table := rates.value;
      match RateOf(table, Upper(from))
      case Unknown => NoConversion
      case DivisionByZero => Raised
      case Known(fromRate) =>
        match RateOf(table, Upper(to))
        case Unknown => NoConversion
        case DivisionByZero => Raised
        case Known(toRate) =>
          if toRate == 0.0 then Raised else Amount(Scale(amount, fromRate, toRate))
  }

  /** The letter case of either code never changes the answer. */
  lemma ConvertIgnoresCase(rates: Option<seq<Rate>>, amount: real, from: string, to: string)
    ensures Convert(rates, amount, Upper(from), to) == Convert(rates, amount, from, to)
    ensures Convert(rates, amount, from, Upper(to)) == Convert(rates, amount, from, to)
  {
    UpperIdempotent(from);
    UpperIdempotent(to);
  }

  /** Converting a currency into itself returns the amount. */
  lemma ConvertToSelf(rates: Option<seq<Rate>>, amount: real, code: string)
    requires Convert(rates, amount, code, code).Amount?
    ensures Convert(rates, amount, code, code).value == amount
  {
  }

  /**
   * Converting there and back returns the original amount, unless the first
   * currency is worth nothing, when the way back divides by zero.
   */
  lemma ConvertRoundTrip(rates: Option<seq<Rate>>, amount: real, a: string, b: string)
    requires Convert(rates, amount, a, b).Amount?
    ensures var back := Convert(rates, Convert(rates, amount, a, b).value, b, a);
      if RateOf(rates.value, Upper(a)).rate == 0.0 then back == Raised else back.Amount? && back.value == amount
  {
    var table := rates.value;
    var ra := RateOf(table, Upper(a)).rate;
    var rb := RateOf(table, Upper(b)).rate;
    ConvertKnown(rates, amount, a, b);
    var x := Convert(rates, amount, a, b).value;
    if ra != 0.0 {
      ScaleBack(amount, ra, rb);
      ConvertKnown(rates, x, b, a);
    } else {
      ConvertDivisionByZero(rates, x, b, a);
    }
  }

  /** `amount * from_rate / to_rate`. */
  function Scale(amount: real, fromRate: real, toRate: real): real
    requires toRate != 0.0
  {
    amount * fromRate / toRate
  }

  lemma ScaleBack(amount: real, ra: real, rb: real)
    requires ra != 0.0 && rb != 0.0
    ensures Scale(Scale(amount, ra, rb), rb, ra) == amount
  {
    var x := amount * ra / rb;
    assert x * rb == amount * ra;
  }

  /** Both rates known and a nonzero target: the conversion's value. */
  lemma ConvertKnown(rates: Option<seq<Rate>>, amount: real, from: string, to: string)
    requires rates.Some? && |rates.value| > 0
    requires RateOf(rates.value, Upper(from)).Known? && RateOf(rates.value, Upper(to)).Known?
    requires RateOf(rates.value, Upper(to)).rate != 0.0
    ensures Convert(rates, amount, from, to).Amount?
    ensures Convert(rates, amount, from, to).value
      == Scale(amount, RateOf(rates.value, Upper(from)).rate, RateOf(rates.value, Upper(to)).rate)
  {
  }

  /** Both rates known and a zero target: the division raises. */
  lemma ConvertDivisionByZero(rates: Option<seq<Rate>>, amount: real, from: string, to: string)
    requires rates.Some? && |rates.value| > 0
    requires RateOf(rates.value, Upper(from)).Known? && RateOf(rates.value, Upper(to)) == Known(0.0)
    ensures Convert(rates, amount, from, to) == Raised
  {
  }

  /** Position of a code in `Priority`, or past its end when it is not a priority code. */
  function PriorityRank(code: string): (k: nat)
    ensures k <= |Priority|
    ensures k < |Priority| <==> code in Priority
    ensures k < |Priority| ==> Priority[k] == code
  {
    if code == "USD" then 0
    else if code == "EUR" then 1
    else if code == "GBP" then 2
    else if code == "JPY" then 3
    else if code == "CHF" then 4
    else if code == "CNY" then 5
    else if code == "UAH" then 6
    else 7
  }

  /** The rouble is the base currency, not one of the priority codes. */
  lemma PriorityExcludesRouble(code: string)
    requires code in Priority
    ensures code != "RUB"
  {
    assert PriorityRank(code) < |Priority|;
  }

  predicate RankLt(a: string, b: string) {
    PriorityRank(a) < PriorityRank(b)
  }

  /** The priority codes of a table, in priority order (the first loop of `format_rates`). */
  function PresentPriority(table: seq<Rate>): (r: seq<string>)
    ensures forall c :: c in r <==> c in Priority && c in Codes(table)
    ensures Pairwise(r, RankLt)
  {
    PriorityInOrder();
    FilterPairwise(Priority, (c: string) => c in Codes(table), RankLt);
    Filter(Priority, (c: string) => c in Codes(table))
  }

  lemma PriorityInOrder()
    ensures Pairwise(Priority, RankLt)
  {
    forall i, j | 0 <= i < j < |Priority|
      ensures RankLt(Priority[i], Priority[j])
    {
      assert PriorityRank(Priority[i]) == i && PriorityRank(Priority[j]) == j;
    }
  }

  /** The second loop of `format_rates`: the remaining codes, alphabetically. */
  function OtherCodes(table: seq<Rate>): (r: seq<string>)
    ensures forall c :: c in r <==> c in Codes(table) && c !in Priority
    ensures SortedBy(r, LexLe)
    ensures multiset(r) <= multiset(Codes(table))
  {
    var rest := Filter(Codes(table), (c: string) => c !in Priority);
    LexLeIsTotalPreorder();
    SortBySorted(rest, LexLe);
    var r := SortBy(rest, LexLe);
    assert forall c :: c in r <==> c in rest by {
      forall c { SameElements(r, rest, c); }
    }
    r
  }

  /** The codes listed by `format_rates`: present priority codes in fixed order, then the rest alphabetically. */
  function RateListing(table: seq<Rate>): (r: seq<string>)
    ensures |PresentPriority(table)| <= |r|
    ensures r[..|PresentPriority(table)|] == PresentPriority(table)
    ensures r[|PresentPriority(table)|..] == OtherCodes(table)
    ensures forall c :: c in r <==> c in Codes(table)
  {
    var prio := PresentPriority(table);
    var others := OtherCodes(table);
    var r := prio + others;
    assert r[..|prio|] == prio && r[|prio|..] == others;
    r
  }

  // ---------------------------------------------------------------------------
  // Prices as `format_rates` prints them
  // ---------------------------------------------------------------------------

  /** A code and its rouble price per unit, as one line of the rate screens shows it. */
  datatype Quote = Quote(code: string, value: real)

  /**
   * `rate_data["value"] / rate_data["nominal"]` for a code of the table: no
   * special case for RUB, and a zero nominal raises.
   */
  function PriceOf(table: seq<Rate>, code: string): (r: Resolved)
    requires code in Codes(table)
    ensures r.DivisionByZero? <==> Lookup(table, code).value.nominal == 0
    ensures r.Known? <==> !r.DivisionByZero?
    ensures r.Known? ==> r.rate == Lookup(table, code).value.value / Lookup(table, code).value.nominal as real
    ensures code != "RUB" ==> r == RateOf(table, code)
  {
    var e := Lookup(table, code).value;
    if e.nominal == 0 then DivisionByZero else Known(e.value / e.nominal as real)
  }

  /** The codes of the listed lines, in order. */
  function QuoteCodes(quotes: seq<Quote>): (r: seq<string>)
    ensures |r| == |quotes| && forall i :: 0 <= i < |quotes| ==> r[i] == quotes[i].code
  {
    seq(|quotes|, i requires 0 <= i < |quotes| => quotes[i].code)
  }

  /** One line per code in the given order, or `None` as soon as one price raises. */
  function Quotes(codes: seq<string>, table: seq<Rate>): (r: Option<seq<Quote>>)
    requires forall i :: 0 <= i < |codes| ==> codes[i] in Codes(table)
    ensures r.None? <==> exists c :: c in codes && PriceOf(table, c).DivisionByZero?
    ensures r.Some? ==> |r.value| == |codes| && forall i :: 0 <= i < |codes| ==>
      r.value[i].code == codes[i] && PriceOf(table, codes[i]) == Known(r.value[i].value)
    ensures r.Some? ==> QuoteCodes(r.value) == codes
  {
    if |codes| == 0 then Some([])
    else
      var head := PriceOf(table, codes[0]);
      var rest := Quotes(codes[1..], table);
      assert forall c :: c in codes <==> c == codes[0] || c in codes[1..];
      if head.DivisionByZero? then None
      else if rest.None? then None
      else Some([Quote(codes[0], head.rate)] + rest.value)
  }

  /** For codes other than RUB the printed price is the rate `convert` uses. */
  lemma QuotesAreRates(codes: seq<string>, table: seq<Rate>)
    requires forall i :: 0 <= i < |codes| ==> codes[i] != "RUB" && codes[i] in Codes(table)
    ensures var r := Quotes(codes, table);
      && (r.None? <==> exists c :: c in codes && RateOf(table, c).DivisionByZero?)
      && (r.Some? ==> |r.value| == |codes| && forall i :: 0 <= i < |codes| ==>
            r.value[i].code == codes[i] && RateOf(table, codes[i]) == Known(r.value[i].value))
  {
    forall i | 0 <= i < |codes|
      ensures PriceOf(table, codes[i]) == RateOf(table, codes[i])
    {
    }
    assert forall c :: c in codes ==> PriceOf(table, c) == RateOf(table, c);
  }

  /** Some row of the table has a zero nominal, so printing it divides by zero. */
  predicate ZeroNominal(table: seq<Rate>) {
    exists c :: c in Codes(table) && Lookup(table, c).value.nominal == 0
  }

  /**
   * `format_rates`: every code of the table in `RateListing` order with its
   * price, or `None` for the `ZeroDivisionError` a zero nominal raises.
   */
  function FormatRates(table: seq<Rate>): (r: Option<seq<Quote>>)
    ensures r.None? <==> ZeroNominal(table)
    ensures r.Some? ==> QuoteCodes(r.value) == RateListing(table)
    ensures r.Some? ==> forall i :: 0 <= i < |r.value| ==>
      r.value[i].code in Codes(table) && PriceOf(table, r.value[i].code) == Known(r.value[i].value)
  {
    var listing := RateListing(table);
    ListingFromTable(table);
    var r := Quotes(listing, table);
    RaisesOnZeroNominal(table, r);
    r
  }

  /** Every listed code is a code of the table. */
  lemma ListingFromTable(table: seq<Rate>)
    ensures forall i :: 0 <= i < |RateListing(table)| ==> RateListing(table)[i] in Codes(table)
  {
    var listing := RateListing(table);
    forall i | 0 <= i < |listing|
      ensures listing[i] in Codes(table)
    {
      assert listing[i] in listing;
    }
  }

  /** Printing the listing raises exactly when some row has a zero nominal. */
  lemma RaisesOnZeroNominal(table: seq<Rate>, r: Option<seq<Quote>>)
    requires forall i :: 0 <= i < |RateListing(table)| ==> RateListing(table)[i] in Codes(table)
    requires r == Quotes(RateListing(table), table)
    ensures r.None? <==> ZeroNominal(table)
  {
    var listing := RateListing(table);
    if r.None? {
      var c :| c in listing && PriceOf(table, c).DivisionByZero?;
      assert c in Codes(table);
    }
    if ZeroNominal(table) {
      var c :| c in Codes(table) && Lookup(table, c).value.nominal == 0;
      assert c in listing;
      assert PriceOf(table, c).DivisionByZero?;
    }
  }

  lemma LexLeIsTotalPreorder()
    ensures TotalPreorder(LexLe)
  {
    forall a, b
      ensures LexLe(a, b) || LexLe(b, a)
    {
      LexLeTotal(a, b);
    }
    forall a, b, c | LexLe(a, b) && LexLe(b, c)
      ensures LexLe(a, c)
    {
      LexLeTransitive(a, b, c);
    }
  }

  /** In a well-keyed table `format_rates` lists every code exactly once. */
  lemma RateListingUnique(table: seq<Rate>)
    requires WellKeyed(table)
    ensures Unique(RateListing(table))
  {
    var prio := PresentPriority(table);
    var others := OtherCodes(table);
    assert Unique(prio) by {
      forall i | 0 <= i < |prio|
        ensures multiset(prio)[prio[i]] == 1
      {
        PairwiseCountOne(prio, RankLt, i);
      }
    }
    UniqueSubMultiset(others, Codes(table));
    UniqueConcat(prio, others);
    assert RateListing(table) == prio + others;
  }
}
