/**
 * The `/stock` request handler: parse the query, roll weekend dates back to
 * Friday, look up the start and end close prices, refuse a purchase the
 * starting balance cannot cover, and report the investment's outcome.
 */
module StockHandler {
  import opened Wrappers
  import opened Calendar
  import opened TimeSeries

  /** The query parameters of a `/stock` request; a missing parameter reads as "". */
  datatype Request = Request(ticker: string, startDate: string, shares: string, startingBalance: string)

  /** `strconv.ParseFloat(text, 64)`; None when it returns an error. */
  type FloatParser = string -> Option<real>

  /**
   * Everything the handler consults besides the request: the number parsers,
   * the current date, and what each of the two price requests delivered
   * (the ticker's daily series, or the reason the request failed).
   */
  datatype Environment = Environment(
    parseFloat: FloatParser,
    scan: Scanner,
    today: Date,
    startFeed: Feed,
    endFeed: Feed)

  /** The numbers and date the handler works with once the query is accepted. */
  datatype Params = Params(shares: real, startingBalance: real, startDate: Date)

  /** Every response the handler can write. */
  datatype Outcome =
    | InvalidShares
    | InvalidBalance
    | InvalidDate
    | InsufficientFunds
    | StartPriceError(cause: PriceError)
    | EndPriceError(cause: PriceError)  // the 500 that the end-price branch means to write
    | Success(initialInvestment: real, finalInvestment: real, newBalance: real)
  {
    /** The HTTP status code of the response. */
    function Status(): (code: int)
      ensures code == 200 <==> Success?
      ensures code == 400 <==> InvalidShares? || InvalidBalance? || InvalidDate? || InsufficientFunds?
      ensures code == 500 <==> StartPriceError? || EndPriceError?
    {
      match this
      case Success(_, _, _) => 200
      case StartPriceError(_) => 500
      case EndPriceError(_) => 500
      case _ => 400
    }

    /**
     * The body of an error response: `http.Error` writes its text and a
     * newline; the funds check writes a JSON object.
     */
    function ErrorBody(): (body: string)
      requires !Success?
      ensures |body| > 0 && body[|body| - 1] == '\n'
      ensures InsufficientFunds? ==> body == "{\"error\":\"Insufficient funds\"}\n"
    {
      match this
      case InvalidShares => "Invalid number of shares\n"
      case InvalidBalance => "Invalid starting balance\n"
      case InvalidDate => "Invalid date format\n"
      case InsufficientFunds => "{\"error\":\"Insufficient funds\"}\n"
      case StartPriceError(cause) => "Error fetching start price: " + cause.Message() + "\n"
      case EndPriceError(cause) => "Error fetching end price: " + cause.Message() + "\n"
    }
  }

  // ---------------------------------------------------------------------
  // Weekend roll-back

  /** A Saturday moves back one day and a Sunday two; other days stay. */
  function RollBackWeekend(d: Date): (r: Date)
    requires Valid(d)
    ensures Valid(r)
    ensures DayNumber(d) - 2 <= DayNumber(r) <= DayNumber(d)
  {
    match WeekdayOf(d)
    case Saturday => SubtractDays(d, 1)
    case Sunday => SubtractDays(d, 2)
    case _ => d
  }

  /** The key under which a price is looked up for date `d`. */
  function BusinessDayKey(d: Date): (key: string)
    requires Valid(d)
    ensures 0 <= RollBackWeekend(d).year < 10000 ==> |key| == 10
  {
    Format(RollBackWeekend(d))
  }

  /** A Saturday becomes the Friday one day earlier. */
  lemma RollBackSaturday(d: Date)
    requires Valid(d) && WeekdayOf(d) == Saturday
    ensures RollBackWeekend(d) == PrevDay(d)
    ensures DayNumber(RollBackWeekend(d)) == DayNumber(d) - 1
    ensures WeekdayOf(RollBackWeekend(d)) == Friday
  {
    PrevDayWeekday(d);
  }

  /** A Sunday becomes the Friday two days earlier. */
  lemma RollBackSunday(d: Date)
    requires Valid(d) && WeekdayOf(d) == Sunday
    ensures RollBackWeekend(d) == PrevDay(PrevDay(d))
    ensures DayNumber(RollBackWeekend(d)) == DayNumber(d) - 2
    ensures WeekdayOf(RollBackWeekend(d)) == Friday
  {
    PrevDayWeekday(d);
    PrevDayWeekday(PrevDay(d));
  }

  /** Monday to Friday are left as they are. */
  lemma RollBackWeekday(d: Date)
    requires Valid(d) && !IsWeekend(WeekdayOf(d))
    ensures RollBackWeekend(d) == d
  {
  }

  /**
   * The rolled-back date is the latest business day not after `d`: it is no
   * weekend day, it is at most two days earlier, and every day after it up to
   * `d` falls on a weekend.
   */
  lemma RollBackLatestBusinessDay(d: Date)
    requires Valid(d)
    ensures !IsWeekend(WeekdayOf(RollBackWeekend(d)))
    ensures DayNumber(d) - 2 <= DayNumber(RollBackWeekend(d)) <= DayNumber(d)
    ensures forall k :: DayNumber(RollBackWeekend(d)) < k <= DayNumber(d) ==> IsWeekend(WeekdayOfNumber(k))
  {
    var n := DayNumber(d);
    var r := RollBackWeekend(d);
    if WeekdayOf(d) == Saturday {
      RollBackSaturday(d);
      forall k | DayNumber(r) < k <= n
        ensures IsWeekend(WeekdayOfNumber(k))
      {
        assert k == n;
      }
    } else if WeekdayOf(d) == Sunday {
      RollBackSunday(d);
      WeekdayOfPreviousNumber(n);
      forall k | DayNumber(r) < k <= n
        ensures IsWeekend(WeekdayOfNumber(k))
      {
        assert k == n - 1 || k == n;
      }
    } else {
      RollBackWeekday(d);
    }
  }

  /** Any valid date strictly between the rolled-back date and `d` is a weekend day. */
  lemma RollBackSkipsOnlyWeekends(d: Date, e: Date)
    requires Valid(d) && Valid(e)
    requires Before(RollBackWeekend(d), e) && !Before(d, e)
    ensures IsWeekend(WeekdayOf(e))
  {
    var r := RollBackWeekend(d);
    RollBackLatestBusinessDay(d);
    DayNumberOrder(r, e);
    DayNumberOrder(d, e);
    assert DayNumber(r) < DayNumber(e) <= DayNumber(d);
    assert IsWeekend(WeekdayOfNumber(DayNumber(e)));
  }

  /** Rolling back twice is rolling back once. */
  lemma RollBackIdempotent(d: Date)
    requires Valid(d)
    ensures RollBackWeekend(RollBackWeekend(d)) == RollBackWeekend(d)
  {
    RollBackLatestBusinessDay(d);
  }

  /** A weekday's text is looked up under exactly that text. */
  lemma WeekdayKeyIsInput(s: string)
    requires Parse(s).Some? && !IsWeekend(WeekdayOf(Parse(s).value))
    ensures BusinessDayKey(Parse(s).value) == s
  {
    FormatOfParse(s);
  }

  /**
   * A looked-up key of years 0000-9999 is itself a valid business-day text.
   * The year bound is needed: before year 0 the key starts with '-', which
   * the layout does not accept.
   */
  lemma BusinessDayKeyParses(d: Date)
    requires Valid(d) && 0 <= RollBackWeekend(d).year < 10000
    ensures Parse(BusinessDayKey(d)) == Some(RollBackWeekend(d))
    ensures !IsWeekend(WeekdayOf(Parse(BusinessDayKey(d)).value))
  {
    ParseOfFormat(RollBackWeekend(d));
    RollBackLatestBusinessDay(d);
  }

  /** Roll-back across a month boundary: Sunday 2024-09-01 is looked up as 2024-08-30. */
  lemma RollBackAcrossMonth()
    ensures Parse("2024-09-01") == Some(Date(2024, 9, 1))
    ensures WeekdayOf(Date(2024, 9, 1)) == Sunday
    ensures BusinessDayKey(Date(2024, 9, 1)) == "2024-08-30"
  {
    var d := Date(2024, 9, 1);
    assert DayNumber(d) == 739495;
    RollBackSunday(d);
  }

  /** Roll-back across a year boundary: Sunday 2023-01-01 is looked up as 2022-12-30. */
  lemma RollBackAcrossYear()
    ensures WeekdayOf(Date(2023, 1, 1)) == Sunday
    ensures BusinessDayKey(Date(2023, 1, 1)) == "2022-12-30"
  {
    var d := Date(2023, 1, 1);
    assert DayNumber(d) == 738886;
    RollBackSunday(d);
    assert PrevDay(d) == Date(2022, 12, 31);
    assert FourDigits(2022) == "2022";
  }

  /** Saturday 2020-02-29 is looked up as the 28th of the leap February. */
  lemma RollBackLeapDay()
    ensures WeekdayOf(Date(2020, 2, 29)) == Saturday
    ensures BusinessDayKey(Date(2020, 2, 29)) == "2020-02-28"
  {
    var d := Date(2020, 2, 29);
    assert DayNumber(d) == 737849;
    RollBackSaturday(d);
    assert FourDigits(2020) == "2020";
  }

  /** A Saturday January 1st rolls back into December of the year before. */
  lemma SaturdayNewYearRollsBack(d: Date)
    requires Valid(d) && d.month == 1 && d.day == 1 && WeekdayOf(d) == Saturday
    ensures RollBackWeekend(d) == Date(d.year - 1, 12, 31)
  {
    RollBackSaturday(d);
  }

  // ---------------------------------------------------------------------
  // The handler

  /**
   * Query validation in the handler's order: shares first, then the starting
   * balance, then the `YYYY-MM-DD` start date.
   */
  function Validate(req: Request, parseFloat: FloatParser): (r: Result<Params, Outcome>)
    ensures parseFloat(req.shares).None? ==> r == Err(InvalidShares)
    ensures parseFloat(req.shares).Some? && parseFloat(req.startingBalance).None? ==> r == Err(InvalidBalance)
    ensures parseFloat(req.shares).Some? && parseFloat(req.startingBalance).Some? && Parse(req.startDate).None?
      ==> r == Err(InvalidDate)
    ensures r.Ok? <==> parseFloat(req.shares).Some? && parseFloat(req.startingBalance).Some? && Parse(req.startDate).Some?
    ensures r.Ok? ==> r.value == Params(parseFloat(req.shares).value, parseFloat(req.startingBalance).value, Parse(req.startDate).value)
  {
    match parseFloat(req.shares)
    case None => Err(InvalidShares)
    case Some(shares) =>
      match parseFloat(req.startingBalance)
      case None => Err(InvalidBalance)
      case Some(balance) =>
        match Parse(req.startDate)
        case None => Err(InvalidDate)
        case Some(start) => Ok(Params(shares, balance, start))
  }

  /**
   * What follows a found start price: the funds check, then the end price and
   * the balance arithmetic. `endPrice` is the end-price lookup's result; it is
   * consulted only once the funds check has passed.
   */
  function Settle(p: Params, startPrice: real, endPrice: Result<real, PriceError>): (o: Outcome)
    ensures o == InsufficientFunds <==> p.shares * startPrice > p.startingBalance
    ensures o.EndPriceError? <==> p.shares * startPrice <= p.startingBalance && endPrice.Err?
    ensures o.EndPriceError? ==> o.cause == endPrice.error
    ensures o.Success? <==> p.shares * startPrice <= p.startingBalance && endPrice.Ok?
    ensures o.InsufficientFunds? || o.EndPriceError? || o.Success?
  {
    var initialInvestment := p.shares * startPrice;
    if initialInvestment > p.startingBalance then
      InsufficientFunds
    else
      match endPrice
      case Err(e) => EndPriceError(e)
      case Ok(price) =>
        var finalInvestment := p.shares * price;
        Success(initialInvestment, finalInvestment, p.startingBalance - initialInvestment + finalInvestment)
  }

  /** The start price the handler looks up once the query is accepted. */
  function StartPrice(p: Params, env: Environment): (r: Result<real, PriceError>)
    requires Valid(p.startDate)
    ensures env.startFeed.Failed? ==> r == Err(FetchFailed(env.startFeed.reason))
    ensures env.startFeed.Delivered? ==> r == ClosePrice(env.startFeed.series, BusinessDayKey(p.startDate), env.scan)
    ensures env.startFeed.Delivered? && r.Err? ==> r.error == NoData(BusinessDayKey(p.startDate))
  {
    GetStockPrice(env.startFeed, BusinessDayKey(p.startDate), env.scan)
  }

  /** The end price: today's date, rolled back by the same rule as the start date. */
  function EndPrice(env: Environment): (r: Result<real, PriceError>)
    requires Valid(env.today)
    ensures env.endFeed.Failed? ==> r == Err(FetchFailed(env.endFeed.reason))
    ensures env.endFeed.Delivered? ==> r == ClosePrice(env.endFeed.series, BusinessDayKey(env.today), env.scan)
    ensures env.endFeed.Delivered? && r.Err? ==> r.error == NoData(BusinessDayKey(env.today))
  {
    GetStockPrice(env.endFeed, BusinessDayKey(env.today), env.scan)
  }

  /** The whole request evaluation of `/stock`. */
  function Handle(req: Request, env: Environment): Outcome
    requires Valid(env.today)
  {
    match Validate(req, env.parseFloat)
    case Err(failure) => failure
    case Ok(p) =>
      match StartPrice(p, env)
      case Err(e) => StartPriceError(e)
      case Ok(startPrice) => Settle(p, startPrice, EndPrice(env))
  }

  /**
   * On success the three numbers are the cost at the start price, the value
   * at the end price, and the balance after buying and selling; the balance
   * changes by shares times the price change.
   */
  lemma SettleSuccess(p: Params, startPrice: real, endPrice: Result<real, PriceError>)
    requires Settle(p, startPrice, endPrice).Success?
    ensures var o := Settle(p, startPrice, endPrice);
      && o.initialInvestment == p.shares * startPrice
      && o.initialInvestment <= p.startingBalance
      && o.finalInvestment == p.shares * endPrice.value
      && o.newBalance == p.startingBalance - o.initialInvestment + o.finalInvestment
      && o.newBalance - p.startingBalance == p.shares * (endPrice.value - startPrice)
  {
  }

  /** A purchase costing exactly the starting balance goes through. */
  lemma SettleEqualityAllowed(p: Params, startPrice: real, endPrice: Result<real, PriceError>)
    requires p.shares * startPrice == p.startingBalance && endPrice.Ok?
    ensures Settle(p, startPrice, endPrice).Success?
    ensures Settle(p, startPrice, endPrice).newBalance == p.shares * endPrice.value
  {
  }

  /** An affordable purchase whose end price is missing reports the end lookup's error. */
  lemma SettleEndPriceFailure(p: Params, startPrice: real, endPrice: Result<real, PriceError>)
    requires p.shares * startPrice <= p.startingBalance && endPrice.Err?
    ensures Settle(p, startPrice, endPrice) == EndPriceError(endPrice.error)
  {
  }

  /** Refusing the purchase consults no end price. */
  lemma SettleRefusalIgnoresEndPrice(p: Params, startPrice: real, e1: Result<real, PriceError>, e2: Result<real, PriceError>)
    requires Settle(p, startPrice, e1) == InsufficientFunds
    ensures Settle(p, startPrice, e2) == InsufficientFunds
  {
  }

  /** Once the query is accepted and the start price found, the handler settles with it. */
  lemma HandleAccepted(req: Request, env: Environment)
    requires Valid(env.today) && Validate(req, env.parseFloat).Ok?
    requires StartPrice(Validate(req, env.parseFloat).value, env).Ok?
    ensures var p := Validate(req, env.parseFloat).value;
      Handle(req, env) == Settle(p, StartPrice(p, env).value, EndPrice(env))
  {
  }

  /** An unparsable share count is reported first, as a 400. */
  lemma SharesCheckedFirst(req: Request, env: Environment)
    requires Valid(env.today) && env.parseFloat(req.shares).None?
    ensures Handle(req, env) == InvalidShares
    ensures Handle(req, env).Status() == 400
    ensures Handle(req, env).ErrorBody() == "Invalid number of shares\n"
  {
  }

  /** With valid shares, an unparsable balance is reported next. */
  lemma BalanceCheckedSecond(req: Request, env: Environment)
    requires Valid(env.today)
    requires env.parseFloat(req.shares).Some? && env.parseFloat(req.startingBalance).None?
    ensures Handle(req, env) == InvalidBalance
    ensures Handle(req, env).Status() == 400
    ensures Handle(req, env).ErrorBody() == "Invalid starting balance\n"
  {
  }

  /** With valid numbers, a start date that is not `YYYY-MM-DD` is reported last. */
  lemma DateCheckedThird(req: Request, env: Environment)
    requires Valid(env.today)
    requires env.parseFloat(req.shares).Some? && env.parseFloat(req.startingBalance).Some?
    requires Parse(req.startDate).None?
    ensures Handle(req, env) == InvalidDate
    ensures Handle(req, env).Status() == 400
    ensures Handle(req, env).ErrorBody() == "Invalid date format\n"
  {
  }

  /**
   * A rejected query is answered before any price is fetched: the outcome is
   * the same whatever the price service delivers and whatever day it is.
   */
  lemma ValidationFetchesNothing(req: Request, env: Environment, startFeed: Feed, endFeed: Feed, today: Date)
    requires Valid(env.today) && Valid(today)
    requires Handle(req, env).InvalidShares? || Handle(req, env).InvalidBalance? || Handle(req, env).InvalidDate?
    ensures Handle(req, env.(startFeed := startFeed, endFeed := endFeed, today := today)) == Handle(req, env)
  {
  }

  /** The validation outcomes arise exactly when the query is rejected. */
  lemma ValidationErrorIff(req: Request, env: Environment)
    requires Valid(env.today)
    ensures Handle(req, env).InvalidShares? || Handle(req, env).InvalidBalance? || Handle(req, env).InvalidDate?
      <==> Validate(req, env.parseFloat).Err?
  {
  }

  /** A failed start-price lookup is a 500 naming the lookup's error. */
  lemma StartPriceFailure(req: Request, env: Environment)
    requires Valid(env.today) && Validate(req, env.parseFloat).Ok?
    requires StartPrice(Validate(req, env.parseFloat).value, env).Err?
    ensures Handle(req, env) == StartPriceError(StartPrice(Validate(req, env.parseFloat).value, env).error)
    ensures Handle(req, env).Status() == 500
    ensures Handle(req, env).ErrorBody()
      == "Error fetching start price: " + StartPrice(Validate(req, env.parseFloat).value, env).error.Message() + "\n"
  {
  }

  /**
   * "Insufficient funds" is the outcome exactly when the query is accepted,
   * the start price is found, and shares times that price exceeds the
   * starting balance; a cost equal to the balance is allowed through.
   */
  lemma InsufficientFundsIff(req: Request, env: Environment)
    requires Valid(env.today)
    ensures Handle(req, env) == InsufficientFunds <==>
      Validate(req, env.parseFloat).Ok?
      && var p := Validate(req, env.parseFloat).value;
         StartPrice(p, env).Ok? && p.shares * StartPrice(p, env).value > p.startingBalance
  {
  }

  /** Refusing the purchase looks up no end price: today and the end feed do not matter. */
  lemma InsufficientFundsFetchesNoEndPrice(req: Request, env: Environment, endFeed: Feed, today: Date)
    requires Valid(env.today) && Valid(today)
    requires Handle(req, env) == InsufficientFunds
    ensures Handle(req, env.(endFeed := endFeed, today := today)) == InsufficientFunds
  {
  }

  /** A failed end-price lookup after an affordable purchase is a 500 naming the lookup's error. */
  lemma EndPriceFailure(req: Request, env: Environment, p: Params, startPrice: real)
    requires Valid(env.today) && Validate(req, env.parseFloat) == Ok(p)
    requires Valid(p.startDate) && StartPrice(p, env) == Ok(startPrice)
    requires p.shares * startPrice <= p.startingBalance
    requires EndPrice(env).Err?
    ensures Handle(req, env) == EndPriceError(EndPrice(env).error)
    ensures Handle(req, env).Status() == 500
    ensures Handle(req, env).ErrorBody() == "Error fetching end price: " + EndPrice(env).error.Message() + "\n"
  {
    SettleEndPriceFailure(p, startPrice, EndPrice(env));
    HandleAccepted(req, env);
    EndPriceErrorResponse(Handle(req, env), EndPrice(env).error);
  }

  /** The response written for a failed end-price lookup. */
  lemma EndPriceErrorResponse(o: Outcome, e: PriceError)
    requires o == EndPriceError(e)
    ensures o.Status() == 500
    ensures o.ErrorBody() == "Error fetching end price: " + e.Message() + "\n"
  {
  }

  /**
   * Success happens exactly when every step succeeds, and then reports the
   * cost at the start price, the value at the end price, and the balance
   * after buying and selling: its change is shares times the price change.
   */
  lemma SuccessIff(req: Request, env: Environment)
    requires Valid(env.today)
    ensures Handle(req, env).Success? <==>
      Validate(req, env.parseFloat).Ok?
      && var p := Validate(req, env.parseFloat).value;
         StartPrice(p, env).Ok? && p.shares * StartPrice(p, env).value <= p.startingBalance && EndPrice(env).Ok?
    ensures Handle(req, env).Success? ==>
      var p := Validate(req, env.parseFloat).value;
      var startPrice, endPrice := StartPrice(p, env).value, EndPrice(env).value;
      var o := Handle(req, env);
      && o.initialInvestment == p.shares * startPrice
      && o.initialInvestment <= p.startingBalance
      && o.finalInvestment == p.shares * endPrice
      && o.newBalance == p.startingBalance - o.initialInvestment + o.finalInvestment
      && o.newBalance - p.startingBalance == p.shares * (endPrice - startPrice)
  {
  }
}
