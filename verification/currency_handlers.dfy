/**
 * The currency router of handlers/currency.py: the rate table screen and the
 * one-line conversion `AMOUNT FROM TO`.
 *
 * The table the service fetched is the `rates` parameter (`None` when the
 * fetch failed); Python's `float()` on the amount text is the `parseFloat`
 * parameter (`None` for the `ValueError` it raises).
 */
module CurrencyHandlers {
  import opened Basics
  import opened Text
  import opened Conversation
  import Store
  import Keyboards
  import CurrencyService

  datatype Reply =
    | Rates(quotes: seq<CurrencyService.Quote>, buttons: seq<Keyboards.Button>)
    | RatesUnavailable(buttons: seq<Keyboards.Button>)
    | RatesRaised
    | AskConversion
    | WrongFormat
    | BadNumber
    | NotPositive
    | ConversionFailed
    | Failed(buttons: seq<Keyboards.Button>)
    | Converted(amount: real, from: string, to: string, result: real, buttons: seq<Keyboards.Button>)

  /**
   * `show_currency_menu` (`menu:currency`): ends any conversation, then
   * `show_currency_rates` says the rates are unavailable when the fetch
   * failed or returned an empty table, and otherwise shows `format_rates`:
   * every code of the table in its listing order with value/nominal. A zero
   * nominal makes `format_rates` raise (`RatesRaised`): nothing is shown,
   * and the conversation stays cleared.
   */
  function ShowRates(db: Store.Db, rates: Option<seq<CurrencyService.Rate>>): (r: Step<Reply>)
    ensures r.session == Cleared && r.db == db
    ensures r.reply.RatesUnavailable? <==> rates.None? || rates.value == []
    ensures r.reply.RatesRaised? <==> rates.Some? && rates.value != [] && CurrencyService.ZeroNominal(rates.value)
    ensures r.reply.Rates? ==>
      && rates.Some?
      && CurrencyService.QuoteCodes(r.reply.quotes) == CurrencyService.RateListing(rates.value)
      && (forall i :: 0 <= i < |r.reply.quotes| ==>
            && r.reply.quotes[i].code in CurrencyService.Codes(rates.value)
            && CurrencyService.PriceOf(rates.value, r.reply.quotes[i].code) == CurrencyService.Known(r.reply.quotes[i].value))
      && r.reply.buttons == Keyboards.CurrencyMenu()
    ensures r.reply.Rates? || r.reply.RatesUnavailable? || r.reply.RatesRaised?
  {
    if rates.None? || rates.value == [] then Step(Cleared, db, RatesUnavailable(Keyboards.CurrencyMenu()))
    else
      match CurrencyService.FormatRates(rates.value)
      case None => Step(Cleared, db, RatesRaised)
      case Some(quotes) => Step(Cleared, db, Rates(quotes, Keyboards.CurrencyMenu()))
  }

  /**
   * A fetched table without a zero nominal is shown in full: each of its
   * codes on exactly one line, priced at the table's value divided by its
   * nominal.
   */
  lemma RatesShowEveryCodeOnce(db: Store.Db, table: seq<CurrencyService.Rate>, c: string)
    requires table != [] && CurrencyService.WellKeyed(table) && !CurrencyService.ZeroNominal(table)
    requires c in CurrencyService.Codes(table)
    ensures var r := ShowRates(db, Some(table));
      && r.reply.Rates?
      && c in CurrencyService.QuoteCodes(r.reply.quotes)
      && Unique(CurrencyService.QuoteCodes(r.reply.quotes))
      && forall q :: q in r.reply.quotes && q.code == c ==>
           q.value == CurrencyService.Lookup(table, c).value.value / CurrencyService.Lookup(table, c).value.nominal as real
  {
    var quotes := CurrencyService.FormatRates(table).value;
    assert ShowRates(db, Some(table)).reply == Rates(quotes, Keyboards.CurrencyMenu());
    CurrencyService.RateListingUnique(table);
    assert CurrencyService.QuoteCodes(quotes) == CurrencyService.RateListing(table);
    forall q | q in quotes && q.code == c
      ensures q.value == CurrencyService.Lookup(table, c).value.value / CurrencyService.Lookup(table, c).value.nominal as real
    {
      var i :| 0 <= i < |quotes| && quotes[i] == q;
      assert CurrencyService.PriceOf(table, c) == CurrencyService.Known(q.value);
    }
  }

  /** `start_conversion` (`currency:convert`): waits for the conversion line; the data bag is kept. */
  function StartConversion(s: Session, db: Store.Db): (r: Step<Reply>)
    ensures r.session == Session(CurrencyConversion, s.data) && WellFormed(r.session)
    ensures r.db == db && r.reply == AskConversion
  {
    Step(Session(CurrencyConversion, s.data), db, AskConversion)
  }

  /**
   * `message.text.strip().upper().split()`: non-empty tokens with no
   * whitespace and no lower-case letter, spelling the text without its spaces.
   */
  function Tokens(text: string): (r: seq<string>)
    ensures forall i :: 0 <= i < |r| ==> IsWord(r[i]) && NoLower(r[i])
    ensures Concat(r) == NonSpace(Upper(Strip(text)))
  {
    UpperHasNoLower(Strip(text));
    WordsKeepNoLower(Upper(Strip(text)));
    Words(Upper(Strip(text)))
  }

  /** No ASCII lower-case letter. */
  predicate NoLower(w: string) {
    forall j :: 0 <= j < |w| ==> !('a' <= w[j] <= 'z')
  }

  lemma UpperHasNoLower(s: string)
    ensures NoLower(Upper(s))
  {
  }

  /** Splitting never brings back a letter the text does not have. */
  lemma {:induction false} WordsKeepNoLower(s: string)
    requires NoLower(s)
    ensures forall i :: 0 <= i < |Words(s)| ==> NoLower(Words(s)[i])
  {
    if |s| > 0 {
      assert NoLower(s[1..]);
      WordsKeepNoLower(s[1..]);
    }
  }

  /** `float(amount_str.replace(",", "."))`: a comma is read as the decimal point. */
  function ReadAmount(token: string, parseFloat: string -> Option<real>): (r: Option<real>)
    ensures ',' !in token ==> r == parseFloat(token)
  {
    parseFloat(Replace(token, ',', "."))
  }

  /**
   * `process_currency_conversion`. Only a successful conversion ends the
   * conversation; every failure answers and keeps waiting for another line.
   * The database is never touched.
   */
  function ProcessConversion(s: Session, db: Store.Db, text: string, parseFloat: string -> Option<real>,
                             rates: Option<seq<CurrencyService.Rate>>): (r: Step<Reply>)
    ensures r.db == db
    ensures !r.reply.Converted? ==> r.session == s
    ensures r.reply.WrongFormat? <==> |Tokens(text)| != 3
    ensures r.reply.BadNumber? <==> |Tokens(text)| == 3 && ReadAmount(Tokens(text)[0], parseFloat).None?
    ensures r.reply.NotPositive? <==>
      |Tokens(text)| == 3 && ReadAmount(Tokens(text)[0], parseFloat).Some? && ReadAmount(Tokens(text)[0], parseFloat).value <= 0.0
    ensures r.reply.Converted? ==>
      && r.session == Cleared
      && |Tokens(text)| == 3
      && ReadAmount(Tokens(text)[0], parseFloat) == Some(r.reply.amount)
      && r.reply.amount > 0.0
      && r.reply.from == Tokens(text)[1] && r.reply.to == Tokens(text)[2]
      && CurrencyService.Convert(rates, r.reply.amount, r.reply.from, r.reply.to) == CurrencyService.Amount(r.reply.result)
    ensures r.reply.WrongFormat? || r.reply.BadNumber? || r.reply.NotPositive? || r.reply.ConversionFailed?
      || r.reply.Failed? || r.reply.Converted?
  {
    var parts := Tokens(text);
    if |parts| != 3 then Stay(s, db, WrongFormat)
    else
      match ReadAmount(parts[0], parseFloat)
      case None => Stay(s, db, BadNumber)
      case Some(amount) =>
        if amount <= 0.0 then Stay(s, db, NotPositive)
        else
          match CurrencyService.Convert(rates, amount, parts[1], parts[2])
          case NoConversion => Stay(s, db, ConversionFailed)
          case Raised => Stay(s, db, Failed(Keyboards.CurrencyMenu()))
          case Amount(v) => Step(Cleared, db, Converted(amount, parts[1], parts[2], v, Keyboards.CurrencyMenu()))
  }

  // ---------------------------------------------------------------------------
  // What a typed line means
  // ---------------------------------------------------------------------------

  /** "1,5" is read exactly as "1.5". */
  lemma CommaIsDecimalPoint(a: string, b: string, parseFloat: string -> Option<real>)
    requires ',' !in a && ',' !in b
    ensures ReadAmount(a + "," + b, parseFloat) == parseFloat(a + "." + b)
  {
    ReplaceAppend(a + ",", b, ',', ".");
    ReplaceAppend(a, ",", ',', ".");
    assert Replace(",", ',', ".") == ".";
  }

  lemma UpperKeepsWord(w: string)
    requires IsWord(w)
    ensures IsWord(Upper(w))
  {
  }

  /** Three words separated by single spaces are the three tokens, upper-cased. */
  lemma ThreeTokens(a: string, b: string, c: string)
    requires IsWord(a) && IsWord(b) && IsWord(c)
    ensures Tokens(a + " " + b + " " + c) == [Upper(a), Upper(b), Upper(c)]
  {
    var t := a + " " + b + " " + c;
    StripTrimmed(t);
    var ua, ub, uc := Upper(a), Upper(b), Upper(c);
    assert Upper(t) == ua + " " + (ub + " " + uc);
    UpperKeepsWord(a);
    UpperKeepsWord(b);
    UpperKeepsWord(c);
    WordsOfWord(uc);
    WordsAppend(ub, uc);
    WordsAppend(ua, ub + " " + uc);
  }

  /**
   * A well-formed line converts what was typed: the amount is the first word,
   * and the currency codes are the other two in any letter case.
   */
  lemma ConvertsWhatWasTyped(s: Session, db: Store.Db, a: string, b: string, c: string,
                             parseFloat: string -> Option<real>, rates: Option<seq<CurrencyService.Rate>>)
    requires IsWord(a) && IsWord(b) && IsWord(c)
    ensures var r := ProcessConversion(s, db, a + " " + b + " " + c, parseFloat, rates);
      var x := ReadAmount(Upper(a), parseFloat);
      && (x.None? ==> r.reply == BadNumber && r.session == s)
      && (x.Some? && x.value > 0.0 && CurrencyService.Convert(rates, x.value, b, c).Amount? ==>
            && r.session == Cleared
            && r.reply == Converted(x.value, Upper(b), Upper(c), CurrencyService.Convert(rates, x.value, b, c).value,
                                    Keyboards.CurrencyMenu()))
      && (x.Some? && x.value > 0.0 && CurrencyService.Convert(rates, x.value, b, c).NoConversion? ==>
            r.reply == ConversionFailed && r.session == s)
  {
    ThreeTokens(a, b, c);
    var x := ReadAmount(Upper(a), parseFloat);
    if x.Some? {
      CurrencyService.ConvertIgnoresCase(rates, x.value, b, c);
      CurrencyService.ConvertIgnoresCase(rates, x.value, b, Upper(c));
    }
  }
}
