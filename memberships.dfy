/**
 * The validators and checks of the memberships store: the `ClassSetters`
 * field validators, the plan and coupon existence checks, the date,
 * expiration and discount checks, and the natural-key equality of
 * `Memberships` and `MembershipPlans`.
 */
module Memberships {
  import opened Wrappers
  import opened PyStr
  import opened PyValues
  import opened Datastore

  // ---------------------------------------------------------------------
  // ClassSetters
  // ---------------------------------------------------------------------

  /**
   * `set_id`: null or empty, then not a string, then longer than 64
   * characters (counted BEFORE trimming); otherwise the trimmed value.
   */
  function SetId(v: Value): (r: Result<string, Exception>)
    ensures r == Failure(NullErr) <==> IsNoneOrEmpty(v)
    ensures r == Failure(AttrErr) <==> EqualsEmptyRaises(v)
    ensures r == Failure(TypeErr) <==> v != Null && !v.Str? && !EqualsEmptyRaises(v)
    ensures r == Failure(ValueErr) <==> v.Str? && |v.s| > 64
    ensures r.Success? <==> v.Str? && 0 < |v.s| <= 64
    ensures r.Success? ==> r.value == Strip(v.s) && Stripped(r.value) && |r.value| <= 64
  {
    if IsNoneOrEmpty(v) then Failure(NullErr)
    else if EqualsEmptyRaises(v) then Failure(AttrErr)
    else if !v.Str? then Failure(TypeErr)
    else if |v.s| > 64 then Failure(ValueErr)
    else Success(Strip(v.s))
  }

  /** Because emptiness is checked before trimming, a blank id is accepted as `""`... */
  lemma SetIdAcceptsBlank(s: string)
    requires 0 < |s| <= 64 && Blank(s)
    ensures SetId(Str(s)) == Success("")
    ensures SetId(Str("")) == Failure(NullErr)
  {
  }

  /** ...and every other accepted id is a fixed point of `set_id`. */
  lemma SetIdFixedPoint(v: Value)
    requires SetId(v).Success? && SetId(v).value != ""
    ensures SetId(Str(SetId(v).value)) == SetId(v)
  {
    StripIdempotent(v.s);
  }

  /** `set_id` as evidently intended: trim first, then reject blank and over-long ids. */
  function SetIdTrimFirst(v: Value): (r: Result<string, Exception>)
    ensures r == Failure(NullErr) <==> v == Null || (v.Str? && Blank(v.s))
    ensures r == Failure(TypeErr) <==> v != Null && !v.Str?
    ensures r == Failure(ValueErr) <==> v.Str? && |Strip(v.s)| > 64
    ensures r.Success? <==> v.Str? && !Blank(v.s) && |Strip(v.s)| <= 64
    ensures r.Success? ==> r.value == Strip(v.s) && r.value != "" && Stripped(r.value)
  {
    if v == Null then Failure(NullErr)
    else if !v.Str? then Failure(TypeErr)
    else
      var t := Strip(v.s);
      if t == "" then Failure(NullErr)
      else if |t| > 64 then Failure(ValueErr)
      else Success(t)
  }

  /** Every id the corrected setter accepts is a fixed point of it. */
  lemma SetIdTrimFirstIdempotent(v: Value)
    requires SetIdTrimFirst(v).Success?
    ensures SetIdTrimFirst(Str(SetIdTrimFirst(v).value)) == SetIdTrimFirst(v)
  {
    StripIdempotent(v.s);
  }

  /** The statuses `set_status` admits, spelled as in the source. */
  const Statuses: set<string> := {"paid", "upaid"}

  /**
   * `set_status`: null or empty raises; otherwise `strip().lower()`, which
   * only a `str` (or `bytes`) has, must be one of `Statuses`; on the class
   * objects `str` and `bytes` the unbound `strip` raises `TypeError`.
   */
  function SetStatus(v: Value): (r: Result<string, Exception>)
    ensures r == Failure(NullErr) <==> IsNoneOrEmpty(v)
    ensures r == Failure(AttrErr) <==> v != Null && !v.Str? && !v.Bytes? && !StripNeedsArgument(v)
    ensures r.Success? <==> v.Str? && Lower(Strip(v.s)) in Statuses
    ensures r.Success? ==> r.value in Statuses && r.value == Lower(Strip(v.s))
    ensures r == Failure(TypeErr) <==> v.Bytes? || StripNeedsArgument(v) || (v.Str? && v.s != "" && Lower(Strip(v.s)) !in Statuses)
  {
    if IsNoneOrEmpty(v) then Failure(NullErr)
    else if EqualsEmptyRaises(v) then Failure(AttrErr)
    else match v
      case Str(s) =>
        var t := Lower(Strip(s));
        if t in Statuses then Success(t) else Failure(TypeErr)
      // The stripped, lower-cased bytes object is never one of the `str` statuses.
      case Bytes => Failure(TypeErr)
      case _ => if StripNeedsArgument(v) then Failure(TypeErr) else Failure(AttrErr)
  }

  /** `set_status` returns a fixed point of itself. */
  lemma SetStatusIdempotent(v: Value)
    requires SetStatus(v).Success?
    ensures SetStatus(Str(SetStatus(v).value)) == SetStatus(v)
  {
    NormalizeIdempotent(v.s);
  }

  /** The spelling `"unpaid"` is rejected, whatever its case or padding. */
  lemma SetStatusRejectsUnpaid(s: string)
    requires Lower(Strip(s)) == "unpaid"
    ensures SetStatus(Str(s)) == Failure(TypeErr)
  {
  }

  /** `set_status` as evidently intended, with the status `"unpaid"`. */
  function SetStatusIntended(v: Value): (r: Result<string, Exception>)
    ensures r == Failure(NullErr) <==> IsNoneOrEmpty(v)
    ensures r == Failure(AttrErr) <==> v != Null && !v.Str? && !v.Bytes? && !StripNeedsArgument(v)
    ensures r.Success? <==> v.Str? && Lower(Strip(v.s)) in {"paid", "unpaid"}
    ensures r.Success? ==> r.value in {"paid", "unpaid"} && r.value == Lower(Strip(v.s))
    ensures r == Failure(TypeErr) <==> v.Bytes? || StripNeedsArgument(v) || (v.Str? && v.s != "" && Lower(Strip(v.s)) !in {"paid", "unpaid"})
  {
    if IsNoneOrEmpty(v) then Failure(NullErr)
    else if EqualsEmptyRaises(v) then Failure(AttrErr)
    else match v
      case Str(s) =>
        var t := Lower(Strip(s));
        if t in {"paid", "unpaid"} then Success(t) else Failure(TypeErr)
      case Bytes => Failure(TypeErr)
      case _ => if StripNeedsArgument(v) then Failure(TypeErr) else Failure(AttrErr)
  }

  /** The corrected setter accepts `"unpaid"`... */
  lemma SetStatusIntendedAcceptsUnpaid()
    ensures SetStatusIntended(Str("unpaid")) == Success("unpaid")
  {
    NormalizedFixed("unpaid");
  }

  /** ...and is idempotent. */
  lemma SetStatusIntendedIdempotent(v: Value)
    requires SetStatusIntended(v).Success?
    ensures SetStatusIntended(Str(SetStatusIntended(v).value)) == SetStatusIntended(v)
  {
    NormalizeIdempotent(v.s);
  }

  /** `set_datetime`: a `date` (a `datetime` is one too) is returned as it is. */
  function SetDatetime(v: Value): (r: Result<Value, Exception>)
    ensures r.Success? <==> v.DateV? || v.DateTimeV?
    ensures r.Success? ==> r.value == v
    ensures r.Failure? ==> r.error == TypeErr
  {
    if v.DateV? || v.DateTimeV? then Success(v) else Failure(TypeErr)
  }

  /**
   * `set_string`: null or empty, then not a string; otherwise the trimmed
   * value, which (emptiness being checked first) may be `""`.
   */
  function SetString(v: Value): (r: Result<string, Exception>)
    ensures r == Failure(NullErr) <==> IsNoneOrEmpty(v)
    ensures r == Failure(AttrErr) <==> EqualsEmptyRaises(v)
    ensures r == Failure(TypeErr) <==> v != Null && !v.Str? && !EqualsEmptyRaises(v)
    ensures r.Success? <==> v.Str? && v.s != ""
    ensures r.Success? ==> r.value == Strip(v.s) && Stripped(r.value)
    ensures r == Success("") <==> v.Str? && v.s != "" && Blank(v.s)
  {
    if IsNoneOrEmpty(v) then Failure(NullErr)
    else if EqualsEmptyRaises(v) then Failure(AttrErr)
    else if !v.Str? then Failure(TypeErr)
    else Success(Strip(v.s))
  }

  /** Every non-empty string `set_string` returns is a fixed point of it. */
  lemma SetStringFixedPoint(v: Value)
    requires SetString(v).Success? && SetString(v).value != ""
    ensures SetString(Str(SetString(v).value)) == SetString(v)
  {
    StripIdempotent(v.s);
  }

  /** The terms `set_schedule_term` admits. */
  const ScheduleTerms: set<string> := {"monthly", "quarterly", "annually"}

  /**
   * `set_schedule_term`: null or empty, then not a string; otherwise the
   * `strip().lower()` form if it is a known term, else `ValueError`.
   */
  function SetScheduleTerm(v: Value): (r: Result<string, Exception>)
    ensures r == Failure(NullErr) <==> IsNoneOrEmpty(v)
    ensures r == Failure(AttrErr) <==> EqualsEmptyRaises(v)
    ensures r == Failure(TypeErr) <==> v != Null && !v.Str? && !EqualsEmptyRaises(v)
    ensures r.Success? <==> v.Str? && Lower(Strip(v.s)) in ScheduleTerms
    ensures r.Success? ==> r.value in ScheduleTerms && r.value == Lower(Strip(v.s))
    ensures r == Failure(ValueErr) <==> v.Str? && v.s != "" && Lower(Strip(v.s)) !in ScheduleTerms
  {
    if IsNoneOrEmpty(v) then Failure(NullErr)
    else if EqualsEmptyRaises(v) then Failure(AttrErr)
    else if !v.Str? then Failure(TypeErr)
    else
      var t := Lower(Strip(v.s));
      if t in ScheduleTerms then Success(t) else Failure(ValueErr)
  }

  /** `set_schedule_term` returns a fixed point of itself. */
  lemma SetScheduleTermIdempotent(v: Value)
    requires SetScheduleTerm(v).Success?
    ensures SetScheduleTerm(Str(SetScheduleTerm(v).value)) == SetScheduleTerm(v)
  {
    NormalizeIdempotent(v.s);
  }

  /** An unknown term such as `"WEEKLY"` is a `ValueError`. */
  lemma SetScheduleTermRejectsWeekly()
    ensures SetScheduleTerm(Str("WEEKLY")) == Failure(ValueErr)
  {
    StripStripped("WEEKLY");
    assert Lower("WEEKLY")[0] == 'w';
  }

  /** `set_schedule_day`: an integer in 1..5, returned unchanged. */
  function SetScheduleDay(v: Value): (r: Result<int, Exception>)
    ensures r.Success? <==> v.Int? && 1 <= v.i <= 5
    ensures r.Success? ==> r.value == v.i
    ensures r == Failure(TypeErr) <==> !v.Int?
    ensures r == Failure(ValueErr) <==> v.Int? && !(1 <= v.i <= 5)
  {
    if !v.Int? then Failure(TypeErr)
    else if v.i !in [1, 2, 3, 4, 5] then Failure(ValueErr)
    else Success(v.i)
  }

  /** `set_number`: a non-negative integer, returned unchanged; a negative one is a `TypeError`. */
  function SetNumber(v: Value): (r: Result<int, Exception>)
    ensures r.Success? <==> v.Int? && v.i >= 0
    ensures r.Success? ==> r.value == v.i
    ensures r.Failure? ==> r.error == TypeErr
  {
    if !v.Int? then Failure(TypeErr)
    else if v.i < 0 then Failure(TypeErr)
    else Success(v.i)
  }

  /** `set_bool`: only a `bool` is accepted (an integer is not). */
  function SetBool(v: Value): (r: Result<bool, Exception>)
    ensures r.Success? <==> v.Bool?
    ensures r.Success? ==> r.value == v.b
    ensures r.Failure? ==> r.error == TypeErr
  {
    if v.Bool? then Success(v.b) else Failure(TypeErr)
  }

  /** `set_amount`: only an `AmountMixin` instance is accepted, and returned as it is. */
  function SetAmount(v: Value): (r: Result<Value, Exception>)
    ensures r.Success? <==> v.Amount?
    ensures r.Success? ==> r.value == v
    ensures r.Failure? ==> r.error == TypeErr
  {
    if v.Amount? then Success(v) else Failure(TypeErr)
  }

  // ---------------------------------------------------------------------
  // Existence checks: True, False or None, or a fault that is not caught
  // ---------------------------------------------------------------------

  /** The check's return value: `True`, `False` or `None`. */
  datatype Tri = Found | NotFound | Unknown

  /**
   * `plan_exist`: a non-string or blank id is not found without a query;
   * all three faults give `None`; otherwise found iff a plan has the
   * trimmed id.
   */
  function PlanExist(planId: Value, st: Store<MembershipPlan>): (r: Tri)
    ensures !planId.Str? || Blank(planId.s) ==> r == NotFound
    ensures planId.Str? && !Blank(planId.s) ==>
              && (r == Unknown <==> st.fault.Some?)
              && (r == Found <==>
                    st.fault.None? && exists i :: 0 <= i < |st.records| && st.records[i].planId == Strip(planId.s))
  {
    if !planId.Str? then NotFound
    else
      var id := Strip(planId.s);
      if id == "" then NotFound
      else match Get(st, (p: MembershipPlan) => p.planId == id)
        case Failure(_) => Unknown
        case Success(plan) => if plan.Some? then Found else NotFound
  }

  /** Surrounding whitespace never changes the outcome of `plan_exist`. */
  lemma PlanExistTrimInsensitive(s: string, st: Store<MembershipPlan>)
    ensures PlanExist(Str(s), st) == PlanExist(Str(Strip(s)), st)
  {
    StripIdempotent(s);
  }

  /**
   * `plan_name_exist`: like `plan_exist` on `strip().lower()` of the name,
   * except that `Aborted` is not caught and propagates to the caller.
   */
  function PlanNameExist(planName: Value, st: Store<MembershipPlan>): (r: Result<Tri, Fault>)
    ensures !planName.Str? || Blank(planName.s) ==> r == Success(NotFound)
    ensures planName.Str? && !Blank(planName.s) ==>
              && (r == Failure(Aborted) <==> st.fault == Some(Aborted))
              && (r == Success(Unknown) <==> st.fault == Some(ConnRefused) || st.fault == Some(Retry))
              && (r == Success(Found) <==>
                    st.fault.None? && exists i :: 0 <= i < |st.records| && st.records[i].planName == Lower(Strip(planName.s)))
    ensures r.Failure? ==> r.error == Aborted
  {
    if !planName.Str? then Success(NotFound)
    else
      var name := Lower(Strip(planName.s));
      if name == "" then Success(NotFound)
      else match Get(st, (p: MembershipPlan) => p.planName == name)
        case Failure(Aborted) => Failure(Aborted)
        case Failure(_) => Success(Unknown)
        case Success(plan) => if plan.Some? then Success(Found) else Success(NotFound)
  }

  /** Case and surrounding whitespace never change the outcome of `plan_name_exist`. */
  lemma PlanNameExistNormalizes(s: string, st: Store<MembershipPlan>)
    ensures PlanNameExist(Str(s), st) == PlanNameExist(Str(Lower(Strip(s))), st)
  {
    NormalizeIdempotent(s);
    NormalizeEmpty(s);
    NormalizeEmpty(Lower(Strip(s)));
  }

  /**
   * A plan name stored through `set_string` keeps its capitals, so
   * `plan_name_exist`, which lower-cases the name it looks for, cannot find
   * it by the name it was given.
   */
  lemma PlanNameWithCapitalsNotFound(name: string, plan: MembershipPlan)
    requires SetString(Str(name)) == Success(plan.planName)
    requires Lower(Strip(name)) != Strip(name)
    ensures PlanNameExist(Str(name), Store([plan], None)) == Success(NotFound)
  {
    var st := Store([plan], None);
    assert st.records[0].planName != Lower(Strip(name));
  }

  /** `"Gold"` is such a name. */
  lemma GoldHasCapital()
    ensures SetString(Str("Gold")) == Success("Gold")
    ensures Lower(Strip("Gold")) != Strip("Gold")
  {
    assert Strip("Gold") == "Gold" by { StripStripped("Gold"); }
    assert Lower("Gold") != "Gold" by { assert Lower("Gold")[0] == 'g'; }
  }

  /** The plan-name setter as evidently intended: trimmed, lower-cased, not blank. */
  function SetPlanName(v: Value): (r: Result<string, Exception>)
    ensures r == Failure(NullErr) <==> v == Null || (v.Str? && Blank(v.s))
    ensures r == Failure(TypeErr) <==> v != Null && !v.Str?
    ensures r.Success? <==> v.Str? && !Blank(v.s)
    ensures r.Success? ==> r.value == Lower(Strip(v.s)) && r.value != ""
  {
    if v == Null then Failure(NullErr)
    else if !v.Str? then Failure(TypeErr)
    else
      var t := Lower(Strip(v.s));
      if t == "" then Failure(NullErr) else Success(t)
  }

  /** With the corrected setter, a stored plan is found by the name it was given. */
  lemma SetPlanNameFound(v: Value, plan: MembershipPlan, before: seq<MembershipPlan>, after: seq<MembershipPlan>)
    requires SetPlanName(v) == Success(plan.planName)
    ensures PlanNameExist(v, Store(before + [plan] + after, None)) == Success(Found)
  {
    var rs := before + [plan] + after;
    assert rs[|before|] == plan;
  }

  /**
   * `coupon_exist`: a non-string or exactly `""` is not found without a
   * query; the code is matched exactly (no trimming or case folding);
   * `Aborted` propagates.
   */
  function CouponExist(code: Value, st: Store<Coupon>): (r: Result<Tri, Fault>)
    ensures !code.Str? || code.s == "" ==> r == Success(NotFound)
    ensures code.Str? && code.s != "" ==>
              && (r == Failure(Aborted) <==> st.fault == Some(Aborted))
              && (r == Success(Unknown) <==> st.fault == Some(ConnRefused) || st.fault == Some(Retry))
              && (r == Success(Found) <==>
                    st.fault.None? && exists i :: 0 <= i < |st.records| && st.records[i].code == code.s)
    ensures r.Failure? ==> r.error == Aborted
  {
    if !code.Str? then Success(NotFound)
    else if code.s == "" then Success(NotFound)
    else match Get(st, (c: Coupon) => c.code == code.s)
      case Failure(Aborted) => Failure(Aborted)
      case Failure(_) => Success(Unknown)
      case Success(coupon) => if coupon.Some? then Success(Found) else Success(NotFound)
  }

  /** Codes that differ only in case are distinct coupons; a blank code is still queried. */
  lemma CouponExistIsExact(c: Coupon)
    requires c.code == "abc"
    ensures CouponExist(Str("ABC"), Store([c], None)) == Success(NotFound)
    ensures CouponExist(Str("abc"), Store([c], None)) == Success(Found)
    ensures CouponExist(Str(" "), Store([], Some(Retry))) == Success(Unknown)
  {
    assert Store([c], None).records[0].code == "abc";
  }

  // ---------------------------------------------------------------------
  // Time and range checks; "today" and the one-day threshold are inputs
  // ---------------------------------------------------------------------

  /**
   * `start_date_valid`: a `date` strictly after today. A `datetime` is a
   * `date` too, but comparing it with today's `date` raises `TypeError`.
   */
  function StartDateValid(startDate: Value, today: Date): (r: Result<bool, Exception>)
    ensures r == Success(true) <==> startDate.DateV? && startDate.date.ordinal > today.ordinal
    ensures r == Failure(TypeErr) <==> startDate.DateTimeV?
    ensures r.Success? || r == Failure(TypeErr)
  {
    match startDate
    case DateV(d) => Success(d.ordinal > today.ordinal)
    case DateTimeV(_, _) => Failure(TypeErr)
    case _ => Success(false)
  }

  /** `expiration_valid`: an integer no smaller than the one-day threshold `get_days(days=1)`. */
  function ExpirationValid(expirationTime: Value, oneDay: int): (r: bool)
    ensures r <==> expirationTime.Int? && expirationTime.i >= oneDay
  {
    if !expirationTime.Int? then false
    else if expirationTime.i < oneDay then false
    else true
  }

  /**
   * `discount_valid`: an integer, rejected only when `0 < d > 100`, that
   * is `0 < d and d > 100`: only discounts above 100 are rejected.
   */
  function DiscountValid(discount: Value): (r: bool)
    ensures r <==> discount.Int? && discount.i <= 100
  {
    if !discount.Int? then false
    else if 0 < discount.i && discount.i > 100 then false
    else true
  }

  /** Zero and every negative discount pass `discount_valid`. */
  lemma DiscountValidAcceptsNegative(d: int)
    requires d <= 0
    ensures DiscountValid(Int(d))
  {
  }

  /**
   * The discount check as evidently intended: an integer in 0..100, that is,
   * the written check with the negative discounts it lets through removed.
   */
  function DiscountInRange(discount: Value): (r: bool)
    ensures r <==> DiscountValid(discount) && !(discount.Int? && discount.i < 0)
  {
    discount.Int? && 0 <= discount.i <= 100
  }

  /** The two discount checks disagree exactly on the negative integers. */
  lemma DiscountChecksDiffer(discount: Value)
    ensures DiscountValid(discount) != DiscountInRange(discount) <==> discount.Int? && discount.i < 0
  {
  }

  // ---------------------------------------------------------------------
  // Natural-key equality
  // ---------------------------------------------------------------------

  /** `Memberships.__eq__`: same class, same `uid`, same `plan_id`. */
  function MembershipEquals(self: Membership, other: Value): (r: bool)
    ensures r <==> other.Obj? && other.entity.MembershipE?
                   && other.entity.membership.uid == self.uid
                   && other.entity.membership.planId == self.planId
  {
    if ClassOf(Obj(MembershipE(self))) != ClassOf(other) then false
    else match other
      case Obj(MembershipE(o)) => self.uid == o.uid && self.planId == o.planId
      case _ => false
  }

  /** Status and dates play no part in membership equality. */
  lemma MembershipEqualsIgnoresStatusAndDates(a: Membership, b: Membership, status: string, created: Date, start: Date)
    ensures MembershipEquals(a, Obj(MembershipE(b)))
            == MembershipEquals(a, Obj(MembershipE(b.(status := status, dateCreated := created, planStartDate := start))))
  {
  }

  /** Membership equality is an equivalence on memberships. */
  lemma MembershipEqualsEquivalence(a: Membership, b: Membership, c: Membership)
    ensures MembershipEquals(a, Obj(MembershipE(a)))
    ensures MembershipEquals(a, Obj(MembershipE(b))) == MembershipEquals(b, Obj(MembershipE(a)))
    ensures MembershipEquals(a, Obj(MembershipE(b))) && MembershipEquals(b, Obj(MembershipE(c)))
            ==> MembershipEquals(a, Obj(MembershipE(c)))
  {
  }

  /**
   * `MembershipPlans.__eq__` as written: after the class check it compares
   * `self.plan_id` with `other.__class__`, a class object, which no string
   * equals; so it never holds.
   */
  function PlanEquals(self: MembershipPlan, other: Value): (r: bool)
    ensures !r
  {
    if ClassOf(Obj(PlanE(self))) != ClassOf(other) then false
    else if Str(self.planId) != ClassOf(other) then false
    else true
  }

  /** In particular no plan equals itself. */
  lemma PlanEqualsNotReflexive(p: MembershipPlan)
    ensures !PlanEquals(p, Obj(PlanE(p)))
  {
  }

  /** Plan equality as evidently intended: same class and same `plan_id`. */
  function PlanEqualsByKey(self: MembershipPlan, other: Value): (r: bool)
    ensures r <==> other.Obj? && other.entity.PlanE? && other.entity.plan.planId == self.planId
  {
    if ClassOf(Obj(PlanE(self))) != ClassOf(other) then false
    else match other
      case Obj(PlanE(o)) => self.planId == o.planId
      case _ => false
  }

  /** The corrected plan equality is reflexive, symmetric and transitive. */
  lemma PlanEqualsByKeyEquivalence(a: MembershipPlan, b: MembershipPlan, c: MembershipPlan)
    ensures PlanEqualsByKey(a, Obj(PlanE(a)))
    ensures PlanEqualsByKey(a, Obj(PlanE(b))) == PlanEqualsByKey(b, Obj(PlanE(a)))
    ensures PlanEqualsByKey(a, Obj(PlanE(b))) && PlanEqualsByKey(b, Obj(PlanE(c)))
            ==> PlanEqualsByKey(a, Obj(PlanE(c)))
  {
  }
}
