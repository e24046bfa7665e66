/**
 * The Python values the validators and checks of the data service are
 * handed, the entity records they are attached to, and the exceptions
 * they raise.
 */
module PyValues {

  /** A calendar day, as its ordinal (days since a fixed epoch); `datetime.date`. */
  datatype Date = Date(ordinal: int)

  datatype Membership = Membership(
    uid: string, planId: string, status: string,
    dateCreated: Date, planStartDate: Date)

  /** `MembershipPlans`; the two monetary fields are opaque and not kept. */
  datatype MembershipPlan = MembershipPlan(
    planId: string, planName: string, description: string,
    totalMembers: int, scheduleDay: int, scheduleTerm: string,
    isActive: bool, dateCreated: Date)

  datatype Coupon = Coupon(code: string, discount: int, isValid: bool, expirationTime: int)

  datatype Stock = Stock(stockId: string, stockCode: string, stockName: string, symbol: string)

  datatype Broker = Broker(brokerId: string, brokerCode: string, brokerName: string)

  /** An instance of one of the persistent model classes. */
  datatype Entity =
    | MembershipE(membership: Membership)
    | PlanE(plan: MembershipPlan)
    | CouponE(coupon: Coupon)
    | StockE(stock: Stock)
    | BrokerE(broker: Broker)

  /**
   * A Python value, with just the cases the validators tell apart.
   * `Bytes` stands for a `bytes` object: the one value here that has a
   * `strip()` method but is not a `str`. `DateTimeV` is a `datetime.datetime`,
   * which Python also counts as a `date`. `Amount` is an `AmountMixin`
   * instance, whose contents are opaque. `Class(name)` is a class object,
   * such as the one `x.__class__` yields; apart from `str` and `bytes`, it is
   * a class without a `strip` attribute. `Other` is any other object that has
   * no `strip` attribute and the default `==`.
   */
  datatype Value =
    | Null
    | Str(s: string)
    | Bytes
    | Int(i: int)
    | Bool(b: bool)
    | DateV(date: Date)
    | DateTimeV(day: Date, microsecond: nat)
    | Amount
    | Obj(entity: Entity)
    | Class(name: string)
    | Other

  /**
   * The exceptions a validator raises. `NullErr` is the `ValueError` raised
   * with a "cannot be Null" message; `ValueErr` is any other `ValueError`;
   * `AttrErr` is the `AttributeError` of calling `strip()` on a value that
   * has no such method, or of an `__eq__` that reads a missing attribute.
   */
  datatype Exception = NullErr | TypeErr | ValueErr | AttrErr

  /** `v.__class__`, as a class object. */
  function ClassOf(v: Value): (c: Value)
    ensures c.Class?
    ensures c == Class("Memberships") <==> v.Obj? && v.entity.MembershipE?
    ensures c == Class("MembershipPlans") <==> v.Obj? && v.entity.PlanE?
  {
    match v
    case Null => Class("NoneType")
    case Str(_) => Class("str")
    case Bytes => Class("bytes")
    case Int(_) => Class("int")
    case Bool(_) => Class("bool")
    case DateV(_) => Class("date")
    case DateTimeV(_, _) => Class("datetime")
    case Amount => Class("AmountMixin")
    case Obj(e) =>
      (match e
       case MembershipE(_) => Class("Memberships")
       case PlanE(_) => Class("MembershipPlans")
       case CouponE(_) => Class("Coupons")
       case StockE(_) => Class("Stock")
       case BrokerE(_) => Class("Broker"))
    case Class(_) => Class("type")
    case Other => Class("object")
  }

  /**
   * The class objects `str` and `bytes`: `v.strip()` on them looks up an
   * unbound method, and calling it with no argument raises `TypeError`
   * (on any other value without a `strip` attribute it is an `AttributeError`).
   */
  predicate StripNeedsArgument(v: Value)
  {
    v == Class("str") || v == Class("bytes")
  }

  /**
   * `v == ""` raises `AttributeError`: `Stock.__eq__` and `Broker.__eq__`
   * read `other.stock_id` or `other.broker_id` of the `""` they are compared
   * with. (The `__eq__` of the membership models checks the class first.)
   */
  predicate EqualsEmptyRaises(v: Value)
  {
    v.Obj? && (v.entity.StockE? || v.entity.BrokerE?)
  }

  /**
   * `value is None or value == ""` is true, the guard most setters open with
   * (when `EqualsEmptyRaises(value)`, it raises instead).
   */
  predicate IsNoneOrEmpty(v: Value)
  {
    v == Null || v == Str("")
  }
}
