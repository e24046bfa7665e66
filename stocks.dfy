/**
 * The field validators and natural-key equality of the stocks store:
 * `Stock`, `Broker`, `StockModel` and the buy, sell and net volume models.
 * Unlike the memberships setters, these call `value.strip()` first, so a
 * value without a `strip()` method raises `AttributeError`, and the
 * emptiness check sees the trimmed string.
 */
module Stocks {
  import opened Wrappers
  import opened PyStr
  import opened PyValues

  /**
   * The contract of a "trim, then require non-blank" setter: a `str` that is
   * not all whitespace gives its trimmed form; a blank one is a null error;
   * `bytes` (which can be stripped but is not a `str`) is a type error, and
   * so are the classes `str` and `bytes`, whose unbound `strip` needs an
   * argument; any other value has no `strip()`.
   */
  ghost predicate TrimmedRequired(v: Value, r: Result<string, Exception>)
  {
    && (r.Success? <==> v.Str? && !Blank(v.s))
    && (r.Success? ==> r.value == Strip(v.s) && r.value != "" && Stripped(r.value))
    && (r == Failure(NullErr) <==> v.Str? && Blank(v.s))
    && (r == Failure(TypeErr) <==> v.Bytes? || StripNeedsArgument(v))
    && (r == Failure(AttrErr) <==> !v.Str? && !v.Bytes? && !StripNeedsArgument(v))
  }

  /** `value = value.strip()`, then the null/empty check, then the `str` check. */
  function StripRequired(v: Value): (r: Result<string, Exception>)
    ensures TrimmedRequired(v, r)
  {
    match v
    case Str(s) =>
      var t := Strip(s);
      if t == "" then Failure(NullErr) else Success(t)
    // A stripped bytes object is neither None nor "", and not a str.
    case Bytes => Failure(TypeErr)
    // None and every other value here has no strip().
    case _ => if StripNeedsArgument(v) then Failure(TypeErr) else Failure(AttrErr)
  }

  /** Whatever such a setter returns is a fixed point of it. */
  lemma StripRequiredIdempotent(v: Value)
    requires StripRequired(v).Success?
    ensures StripRequired(Str(StripRequired(v).value)) == StripRequired(v)
  {
    StripIdempotent(v.s);
  }

  // ---------------------------------------------------------------------
  // Stock
  // ---------------------------------------------------------------------

  /** `Stock.set_string`, the validator of `stock_id`, `stock_code` and `symbol`. */
  function StockSetString(v: Value): (r: Result<string, Exception>)
    ensures TrimmedRequired(v, r)
  {
    StripRequired(v)
  }

  /** A code that needs no trimming, such as `"ABC"`, is stored unchanged. */
  lemma StockSetStringKeepsCode()
    ensures StockSetString(Str("ABC")) == Success("ABC")
    ensures StockSetString(Str("")) == Failure(NullErr)
  {
    assert Strip("ABC") == "ABC" by { StripStripped("ABC"); }
  }

  /** `Stock.set_stock_name`: the non-blank `strip().lower()` of the name. */
  function StockSetStockName(v: Value): (r: Result<string, Exception>)
    ensures r.Success? <==> v.Str? && !Blank(v.s)
    ensures r.Success? ==> r.value == Lower(Strip(v.s)) && r.value != ""
    ensures r == Failure(NullErr) <==> v.Str? && Blank(v.s)
    ensures r == Failure(TypeErr) <==> v.Bytes? || StripNeedsArgument(v)
    ensures r == Failure(AttrErr) <==> !v.Str? && !v.Bytes? && !StripNeedsArgument(v)
  {
    match v
    case Str(s) =>
      var t := Lower(Strip(s));
      if t == "" then Failure(NullErr) else Success(t)
    case Bytes => Failure(TypeErr)
    case _ => if StripNeedsArgument(v) then Failure(TypeErr) else Failure(AttrErr)
  }

  /** The stock name setter is idempotent. */
  lemma StockSetStockNameIdempotent(v: Value)
    requires StockSetStockName(v).Success?
    ensures StockSetStockName(Str(StockSetStockName(v).value)) == StockSetStockName(v)
  {
    NormalizeIdempotent(v.s);
    NormalizeEmpty(Lower(Strip(v.s)));
  }

  /** The normalized form of `"ABCD"`. */
  lemma NormalizeAbcd()
    ensures Lower(Strip("ABCD")) == "abcd"
  {
    assert Lower("ABCD") == "abcd";
    StripStripped("ABCD");
  }

  /** `"ABCD"` is stored as `"abcd"`. */
  lemma StockSetStockNameLowers()
    ensures StockSetStockName(Str("ABCD")) == Success("abcd")
  {
    NormalizeAbcd();
  }

  /**
   * `Stock.__eq__`: equal `stock_id`, `stock_code` and `symbol`; there is no
   * class check, so an object without those attributes raises `AttributeError`.
   */
  function StockEquals(self: Stock, other: Value): (r: Result<bool, Exception>)
    ensures r.Success? <==> other.Obj? && other.entity.StockE?
    ensures r.Failure? ==> r.error == AttrErr
    ensures r == Success(true) <==>
              && other.Obj? && other.entity.StockE?
              && other.entity.stock.stockId == self.stockId
              && other.entity.stock.stockCode == self.stockCode
              && other.entity.stock.symbol == self.symbol
  {
    match other
    case Obj(StockE(o)) =>
      if self.stockId != o.stockId then Success(false)
      else if self.stockCode != o.stockCode then Success(false)
      else if self.symbol != o.symbol then Success(false)
      else Success(true)
    case _ => Failure(AttrErr)
  }

  /** The stock name plays no part in stock equality. */
  lemma StockEqualsIgnoresName(a: Stock, b: Stock, name: string)
    ensures StockEquals(a, Obj(StockE(b))) == StockEquals(a, Obj(StockE(b.(stockName := name))))
  {
  }

  /** Stock equality is reflexive, symmetric and transitive on stocks. */
  lemma StockEqualsEquivalence(a: Stock, b: Stock, c: Stock)
    ensures StockEquals(a, Obj(StockE(a))) == Success(true)
    ensures StockEquals(a, Obj(StockE(b))) == StockEquals(b, Obj(StockE(a)))
    ensures StockEquals(a, Obj(StockE(b))) == Success(true) && StockEquals(b, Obj(StockE(c))) == Success(true)
            ==> StockEquals(a, Obj(StockE(c))) == Success(true)
  {
  }

  // ---------------------------------------------------------------------
  // Broker
  // ---------------------------------------------------------------------

  /**
   * `Broker.set_id`: the trimmed id, or, when that is blank, the freshly
   * generated `create_id(size=12)`, passed in as `generated`.
   */
  function BrokerSetId(v: Value, generated: string): (r: Result<string, Exception>)
    requires |generated| == 12
    ensures v.Str? ==> r.Success?
    ensures v.Str? && Blank(v.s) ==> r == Success(generated)
    ensures v.Str? && !Blank(v.s) ==> r == Success(Strip(v.s)) && Stripped(r.value) && r.value != ""
    ensures r == Failure(TypeErr) <==> v.Bytes? || StripNeedsArgument(v)
    ensures r == Failure(AttrErr) <==> !v.Str? && !v.Bytes? && !StripNeedsArgument(v)
  {
    match v
    case Str(s) =>
      var t := Strip(s);
      if t == "" then Success(generated) else Success(t)
    case Bytes => Failure(TypeErr)
    case _ => if StripNeedsArgument(v) then Failure(TypeErr) else Failure(AttrErr)
  }

  /**
   * Re-validating a broker id gives it back unchanged, whatever id would be
   * generated next, provided generated ids have no surrounding whitespace
   * (an assumption about `create_id` beyond its length).
   */
  lemma BrokerSetIdIdempotent(s: string, generated: string, next: string)
    requires |generated| == 12 && |next| == 12 && Stripped(generated)
    ensures BrokerSetId(Str(BrokerSetId(Str(s), generated).value), next) == BrokerSetId(Str(s), generated)
  {
    if Blank(s) {
      StripStripped(generated);
      assert !IsSpace(generated[0]);
      assert BrokerSetId(Str(generated), next) == Success(generated);
    } else {
      var t := Strip(s);
      StripIdempotent(s);
      assert BrokerSetId(Str(t), next) == Success(t);
    }
  }

  /** `Broker.set_broker_code`: trim, then require non-blank. */
  function BrokerSetBrokerCode(v: Value): (r: Result<string, Exception>)
    ensures TrimmedRequired(v, r)
  {
    StripRequired(v)
  }

  /** `Broker.set_broker_name`: trim, then require non-blank. */
  function BrokerSetBrokerName(v: Value): (r: Result<string, Exception>)
    ensures TrimmedRequired(v, r)
  {
    StripRequired(v)
  }

  /** `Broker.__eq__`: equal `broker_id` and `broker_code`; no class check. */
  function BrokerEquals(self: Broker, other: Value): (r: Result<bool, Exception>)
    ensures r.Success? <==> other.Obj? && other.entity.BrokerE?
    ensures r.Failure? ==> r.error == AttrErr
    ensures r == Success(true) <==>
              && other.Obj? && other.entity.BrokerE?
              && other.entity.broker.brokerId == self.brokerId
              && other.entity.broker.brokerCode == self.brokerCode
  {
    match other
    case Obj(BrokerE(o)) =>
      if self.brokerId != o.brokerId then Success(false)
      else if self.brokerCode != o.brokerCode then Success(false)
      else Success(true)
    case _ => Failure(AttrErr)
  }

  /** The broker name plays no part in broker equality. */
  lemma BrokerEqualsIgnoresName(a: Broker, b: Broker, name: string)
    ensures BrokerEquals(a, Obj(BrokerE(b))) == BrokerEquals(a, Obj(BrokerE(b.(brokerName := name))))
  {
  }

  /** Broker equality is reflexive, symmetric and transitive on brokers. */
  lemma BrokerEqualsEquivalence(a: Broker, b: Broker, c: Broker)
    ensures BrokerEquals(a, Obj(BrokerE(a))) == Success(true)
    ensures BrokerEquals(a, Obj(BrokerE(b))) == BrokerEquals(b, Obj(BrokerE(a)))
    ensures BrokerEquals(a, Obj(BrokerE(b))) == Success(true) && BrokerEquals(b, Obj(BrokerE(c))) == Success(true)
            ==> BrokerEquals(a, Obj(BrokerE(c))) == Success(true)
  {
  }

  // ---------------------------------------------------------------------
  // StockModel (a stock transaction)
  // ---------------------------------------------------------------------

  /** `StockModel.set_id`, the validator of `exchange_id` and `transaction_id`. */
  function StockModelSetId(v: Value): (r: Result<string, Exception>)
    ensures TrimmedRequired(v, r)
  {
    StripRequired(v)
  }

  /** `StockModel.set_stock`: only a `Stock`, returned as it is. */
  function StockModelSetStock(v: Value): (r: Result<Stock, Exception>)
    ensures r.Success? <==> v.Obj? && v.entity.StockE?
    ensures r.Success? ==> r.value == v.entity.stock
    ensures r.Failure? ==> r.error == TypeErr
  {
    match v
    case Obj(StockE(s)) => Success(s)
    case _ => Failure(TypeErr)
  }

  /** `StockModel.set_broker`: only a `Broker`, returned as it is. */
  function StockModelSetBroker(v: Value): (r: Result<Broker, Exception>)
    ensures r.Success? <==> v.Obj? && v.entity.BrokerE?
    ensures r.Success? ==> r.value == v.entity.broker
    ensures r.Failure? ==> r.error == TypeErr
  {
    match v
    case Obj(BrokerE(b)) => Success(b)
    case _ => Failure(TypeErr)
  }

  // ---------------------------------------------------------------------
  // Buy, sell and net volumes
  // ---------------------------------------------------------------------

  /** `BuyVolumeModel.set_stock_id`: trim, then require non-blank. */
  function BuyVolumeSetStockId(v: Value): (r: Result<string, Exception>)
    ensures TrimmedRequired(v, r)
  {
    StripRequired(v)
  }

  /** `BuyVolumeModel.set_date`: every value is an `object`, so every value is accepted unchanged. */
  function BuyVolumeSetDate(v: Value): (r: Result<Value, Exception>)
    ensures r.Success? && r.value == v
  {
    Success(v)
  }

  /**
   * `BuyVolumeModel.set_int_property`: null or `""`, then not an integer,
   * then negative; otherwise the integer unchanged.
   */
  function BuyVolumeSetIntProperty(v: Value): (r: Result<int, Exception>)
    ensures r == Failure(NullErr) <==> IsNoneOrEmpty(v)
    ensures r == Failure(AttrErr) <==> EqualsEmptyRaises(v)
    ensures r == Failure(TypeErr) <==> !IsNoneOrEmpty(v) && !EqualsEmptyRaises(v) && !v.Int?
    ensures r == Failure(ValueErr) <==> v.Int? && v.i < 0
    ensures r.Success? <==> v.Int? && v.i >= 0
    ensures r.Success? ==> r.value == v.i
  {
    if IsNoneOrEmpty(v) then Failure(NullErr)
    else if EqualsEmptyRaises(v) then Failure(AttrErr)
    else if !v.Int? then Failure(TypeErr)
    else if v.i < 0 then Failure(ValueErr)
    else Success(v.i)
  }

  /**
   * The contract of the sell and net `set_int`: null or `""`, then not an
   * integer; every integer, negative ones included, is returned unchanged.
   */
  ghost predicate AnyInt(v: Value, r: Result<int, Exception>)
  {
    && (r == Failure(NullErr) <==> IsNoneOrEmpty(v))
    && (r == Failure(AttrErr) <==> EqualsEmptyRaises(v))
    && (r == Failure(TypeErr) <==> !IsNoneOrEmpty(v) && !EqualsEmptyRaises(v) && !v.Int?)
    && (r.Success? <==> v.Int?)
    && (r.Success? ==> r.value == v.i)
  }

  /** `value is None or value == ""`, then `isinstance(value, int)`, and no sign check. */
  function IntRequired(v: Value): (r: Result<int, Exception>)
    ensures AnyInt(v, r)
  {
    if IsNoneOrEmpty(v) then Failure(NullErr)
    else if EqualsEmptyRaises(v) then Failure(AttrErr)
    else if !v.Int? then Failure(TypeErr)
    else Success(v.i)
  }

  /** `SellVolumeModel.set_id`, the validator of `stock_id`. */
  function SellVolumeSetId(v: Value): (r: Result<string, Exception>)
    ensures TrimmedRequired(v, r)
  {
    StripRequired(v)
  }

  /** `SellVolumeModel.set_int`. */
  function SellVolumeSetInt(v: Value): (r: Result<int, Exception>)
    ensures AnyInt(v, r)
  {
    IntRequired(v)
  }

  /** `SellVolumeModel.set_transaction_id`: trim, then require non-blank. */
  function SellVolumeSetTransactionId(v: Value): (r: Result<string, Exception>)
    ensures TrimmedRequired(v, r)
  {
    StripRequired(v)
  }

  /** `NetVolumeModel.set_id`, the validator of `stock_id` and `transaction_id`. */
  function NetVolumeSetId(v: Value): (r: Result<string, Exception>)
    ensures TrimmedRequired(v, r)
  {
    StripRequired(v)
  }

  /** `NetVolumeModel.set_int`. */
  function NetVolumeSetInt(v: Value): (r: Result<int, Exception>)
    ensures AnyInt(v, r)
  {
    IntRequired(v)
  }

  /** A negative count is a `ValueError` for buy volumes but is stored as it is for sell and net volumes. */
  lemma NegativeVolumes(i: int)
    requires i < 0
    ensures BuyVolumeSetIntProperty(Int(i)) == Failure(ValueErr)
    ensures SellVolumeSetInt(Int(i)) == Success(i)
    ensures NetVolumeSetInt(Int(i)) == Success(i)
  {
  }
}
