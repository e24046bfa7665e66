# Data-service store validators, in Dafny

This project models the validation layer of the data service's datastore
models. Two store files are covered.

- `data_service/store/memberships.py`:
  - the `ClassSetters` field validators of `Memberships` and `MembershipPlans`;
  - the existence checks `plan_exist`, `plan_name_exist` and `coupon_exist`;
  - the checks `start_date_valid`, `expiration_valid` and `discount_valid`;
  - the natural-key `__eq__` of both models.
- `data_service/store/stocks.py`:
  - the validators of `Stock`, `Broker`, `StockModel` and the buy, sell and net volume models;
  - the `__eq__` of `Stock` and `Broker`.

The Python code is pure validation logic, so every validator is a Dafny
function. Each function takes a modelled Python value (`PyValues.Value`) and
returns `Result<T, Exception>`, where a `Failure` stands for the exception
the code raises.

- `pystr.dfy` models Python's `str.strip()` (the full `str.isspace()` set)
  and `str.lower()` (ASCII letters only). It proves that `strip()` removes
  exactly the surrounding whitespace, and that `strip()` and `lower()`
  commute and are idempotent.
- `values.dfy` holds the value type, the entity records and `__class__`.
- `datastore.dfy` makes the datastore an explicit input: the records of one
  kind, plus the fault (if any) that the next query raises. A single-result
  query returns the first matching record.
- `memberships.dfy` and `stocks.dfy` follow the two source files.

Each validator's contract, and that of each corrected validator in
"## Findings", states in both directions:
  - when it succeeds, and what it returns;
  - which exception it raises, and for exactly which inputs.

The lemmas beside each validator state:
  - idempotence, or the fixed points of the validator;
  - what equality ignores, and that equality is an equivalence;
  - how the setters and the existence checks interact.

The model follows the code as written. Where the source itself states an
intent that the code does not meet, "## Findings" records the discrepancy.
Points of the code worth knowing:
  - `plan_name` is validated by `set_string`, which only trims
    (memberships.py:218, :138-143). `plan_name_exist` lower-cases the name
    it queries for (memberships.py:61).
  - `set_status` admits `paid` and `upaid` (memberships.py:129), while the
    comment on the `status` field says `Paid/ Unpaid` (memberships.py:188).
  - `discount_valid` rejects only integers above 100 and accepts every
    negative one (memberships.py:111).
  - `set_id` checks emptiness and length before it trims
    (memberships.py:117-123).
  - `plan_exist` turns all three store faults into `None`, as its docstring
    "return None if Error" says (memberships.py:31-32, :42-47).
    `plan_name_exist` and `coupon_exist` catch only `ConnectionRefusedError`
    and `RetryError`, so an `Aborted` fault propagates to the caller
    (memberships.py:56-57, :70-73, :92-95).
  - A negative `set_number` raises `TypeError` (memberships.py:166-167).
  - The setters that open with `value is None or value == ""`
    (memberships.py:117, :139, :146; stocks.py:167, :199, :237) raise
    `AttributeError` for a `Stock` or `Broker` object. Their `__eq__`
    reads `other.stock_id` or `other.broker_id` of the `""`
    (stocks.py:42, :88).
  - The stocks setters call `value.strip()` first (stocks.py:18, :29, :60).
    On a value without `strip` this raises `AttributeError`. On the class
    objects `str` and `bytes` it raises `TypeError`, because their unbound
    `strip` needs an argument.

## Model

| member | source | states |
|---|---|---|
| PyStr.Strip | data_service/store/memberships.py:123 | `strip()` returns no surrounding whitespace, and returns `""` exactly when the input is all whitespace |
| PyStr.StripIsSlice | data_service/store/stocks.py:18 | `strip()` keeps one contiguous slice of the input and drops only whitespace on either side of it |
| PyStr.Lower | data_service/store/stocks.py:29 | `lower()` keeps the length and maps each character by `LowerChar` |
| PyStr.StripLowerCommute | data_service/store/memberships.py:128 | `strip()` then `lower()` equals `lower()` then `strip()` |
| PyStr.NormalizeIdempotent | data_service/store/memberships.py:150 | applying `strip().lower()` twice is the same as applying it once |
| PyValues.ClassOf | data_service/store/memberships.py:195 | `__class__` is `Memberships` exactly for membership objects, and `MembershipPlans` exactly for plan objects |
| Datastore.FirstMatch | data_service/store/memberships.py:40-41 | an equality query finds a record exactly when some record matches; the record found matches and is in the store |
| Datastore.Get | data_service/store/memberships.py:40-41 | a query raises exactly when the store has a fault, and raises that fault; otherwise it returns a record exactly when one matches, and the record it returns matches and is in the store |
| Datastore.FirstMatchIsFirst | data_service/store/memberships.py:40-41 | no record before the returned one matches |
| Memberships.SetId | data_service/store/memberships.py:116-123 | `None`/`""` gives a null error; a `Stock` or `Broker` object gives `AttributeError`, because comparing it with `""` runs an `__eq__` that reads a missing attribute; any other non-string gives `TypeError`; over 64 characters before trimming gives `ValueError`; otherwise the trimmed value, at most 64 long |
| Memberships.SetIdAcceptsBlank | data_service/store/memberships.py:117-123 | a non-empty all-whitespace id of at most 64 characters is accepted as `""`, although `""` itself is rejected |
| Memberships.SetIdFixedPoint | data_service/store/memberships.py:116-123 | every non-empty id that `set_id` returns is accepted again unchanged |
| Memberships.SetIdTrimFirst | data_service/store/memberships.py:116-123 | intended `set_id` trims first: `None` or a blank string is a null error; a non-string is `TypeError`; over 64 characters after trimming is `ValueError`; it succeeds exactly for a non-blank string of at most 64 trimmed characters, returning the trimmed form |
| Memberships.SetIdTrimFirstIdempotent | data_service/store/memberships.py:116-123 | the corrected `set_id` is idempotent on everything it accepts |
| Memberships.SetStatus | data_service/store/memberships.py:125-131 | `None`/`""` gives a null error; a value without `strip()` gives `AttributeError`; the class objects `str` and `bytes` give `TypeError`; success exactly when `strip().lower()` is `paid` or `upaid`, returning that form; every other string, and bytes, gives `TypeError` |
| Memberships.SetStatusIdempotent | data_service/store/memberships.py:125-131 | an accepted status is accepted again unchanged |
| Memberships.SetStatusRejectsUnpaid | data_service/store/memberships.py:129 | any spelling of `unpaid` is rejected with `TypeError` |
| Memberships.SetStatusIntended | data_service/store/memberships.py:125-131 | intended `set_status`: accepts exactly the strings whose `strip().lower()` form is `paid` or `unpaid`, and returns that form; the null error, `AttributeError` and `TypeError` cases are those of `set_status` |
| Memberships.SetStatusIntendedAcceptsUnpaid | data_service/store/memberships.py:129 | the corrected setter accepts `unpaid` |
| Memberships.SetStatusIntendedIdempotent | data_service/store/memberships.py:125-131 | the corrected setter is idempotent |
| Memberships.SetDatetime | data_service/store/memberships.py:133-136 | a `date` or `datetime` is returned unchanged; anything else gives `TypeError` |
| Memberships.SetString | data_service/store/memberships.py:138-143 | `None`/`""` gives a null error; a `Stock` or `Broker` object gives `AttributeError`, because comparing it with `""` runs an `__eq__` that reads a missing attribute; any other non-string gives `TypeError`; any other string returns its trimmed form, which is `""` exactly for whitespace-only input |
| Memberships.SetStringFixedPoint | data_service/store/memberships.py:138-143 | every non-empty result of `set_string` is accepted again unchanged |
| Memberships.SetScheduleTerm | data_service/store/memberships.py:145-153 | success exactly when `strip().lower()` is `monthly`, `quarterly` or `annually`, returning that form; any other non-empty string gives `ValueError`; `None`/`""` gives a null error; a `Stock` or `Broker` object gives `AttributeError`, because comparing it with `""` runs an `__eq__` that reads a missing attribute; any other non-string gives `TypeError` |
| Memberships.SetScheduleTermIdempotent | data_service/store/memberships.py:145-153 | an accepted term is accepted again unchanged |
| Memberships.SetScheduleTermRejectsWeekly | data_service/store/memberships.py:150-153 | `"WEEKLY"` gives `ValueError` |
| Memberships.SetScheduleDay | data_service/store/memberships.py:155-160 | an integer 1..5 is returned unchanged; another integer gives `ValueError`; a non-integer gives `TypeError` |
| Memberships.SetNumber | data_service/store/memberships.py:162-169 | a non-negative integer is returned unchanged; a negative integer or a non-integer gives `TypeError` |
| Memberships.SetBool | data_service/store/memberships.py:171-174 | only a `bool` is accepted, and returned unchanged |
| Memberships.SetAmount | data_service/store/memberships.py:176-179 | only an `AmountMixin` is accepted, and returned unchanged |
| Memberships.PlanExist | data_service/store/memberships.py:29-50 | a non-string or blank id is not found; for any other id, every fault gives `None`, and a plan is found exactly when one has the trimmed id |
| Memberships.PlanExistTrimInsensitive | data_service/store/memberships.py:36 | surrounding whitespace never changes the result |
| Memberships.PlanNameExist | data_service/store/memberships.py:54-74 | like `plan_exist` on `strip().lower()` of the name; connection-refused and retry faults give `None`; `Aborted` propagates |
| Memberships.PlanNameExistNormalizes | data_service/store/memberships.py:61 | case and surrounding whitespace never change the result |
| Memberships.PlanNameWithCapitalsNotFound | data_service/store/memberships.py:218 | a plan whose name was stored through `set_string` and contains capitals is not found by that same name |
| Memberships.GoldHasCapital | data_service/store/memberships.py:218 | `"Gold"` is stored as `"Gold"`, and its lower-cased form differs from it |
| Memberships.SetPlanName | data_service/store/memberships.py:218 | intended plan-name setter: accepts exactly non-blank strings and returns their non-empty `strip().lower()` form; `None` or a blank string is a null error; any other value is `TypeError` |
| Memberships.SetPlanNameFound | data_service/store/memberships.py:54-74 | a plan named through the corrected setter is found by the name it was given, in any store `before + [plan] + after` without a fault |
| Memberships.CouponExist | data_service/store/memberships.py:82-95 | a non-string or `""` is not found; any other code is matched exactly; connection-refused and retry faults give `None`; `Aborted` propagates |
| Memberships.CouponExistIsExact | data_service/store/memberships.py:85-88 | `"ABC"` does not find the coupon `"abc"`, `"abc"` does, and a blank code is still queried |
| Memberships.StartDateValid | data_service/store/memberships.py:15-22 | true exactly for a `date` later than today; a `datetime` raises `TypeError`; false for anything else |
| Memberships.ExpirationValid | data_service/store/memberships.py:99-104 | true exactly for an integer at least the one-day threshold |
| Memberships.DiscountValid | data_service/store/memberships.py:108-113 | true exactly for an integer of at most 100 |
| Memberships.DiscountValidAcceptsNegative | data_service/store/memberships.py:111 | zero and every negative discount are accepted |
| Memberships.DiscountInRange | data_service/store/memberships.py:108-113 | intended check: true exactly when the written check holds and the discount is not a negative integer, that is, for an integer in 0..100 |
| Memberships.DiscountChecksDiffer | data_service/store/memberships.py:111 | the written and intended checks disagree exactly on negative integers |
| Memberships.MembershipEquals | data_service/store/memberships.py:194-202 | equal exactly when the other value is a membership with the same `uid` and `plan_id` |
| Memberships.MembershipEqualsIgnoresStatusAndDates | data_service/store/memberships.py:194-202 | status and the two dates play no part in equality |
| Memberships.MembershipEqualsEquivalence | data_service/store/memberships.py:194-202 | membership equality is reflexive, symmetric and transitive |
| Memberships.PlanEquals | data_service/store/memberships.py:229-234 | plan equality as written never holds |
| Memberships.PlanEqualsNotReflexive | data_service/store/memberships.py:232 | no plan equals itself |
| Memberships.PlanEqualsByKey | data_service/store/memberships.py:229-234 | intended plan equality: the other value is a plan with the same `plan_id` |
| Memberships.PlanEqualsByKeyEquivalence | data_service/store/memberships.py:229-234 | the corrected plan equality is reflexive, symmetric and transitive |
| Stocks.StripRequired | data_service/store/stocks.py:67-73 | trim-then-require: a non-blank string gives its trimmed non-empty form; a blank string gives a null error; bytes give `TypeError`, and so do the class objects `str` and `bytes`; anything else gives `AttributeError` |
| Stocks.StripRequiredIdempotent | data_service/store/stocks.py:67-73 | an accepted value is accepted again unchanged |
| Stocks.StockSetString | data_service/store/stocks.py:12-23 | trim-then-require, as `StripRequired` |
| Stocks.StockSetStringKeepsCode | tests/test_store/test_stock.py:24-35 | `"ABC"` is stored unchanged and `""` gives a null error |
| Stocks.StockSetStockName | data_service/store/stocks.py:25-34 | a non-blank string gives its non-empty `strip().lower()` form; a null error, `TypeError` or `AttributeError` as for `set_string` |
| Stocks.StockSetStockNameIdempotent | data_service/store/stocks.py:25-34 | an accepted name is accepted again unchanged |
| Stocks.StockSetStockNameLowers | tests/test_store/test_stock.py:37-40 | `"ABCD"` is stored as `"abcd"` |
| Stocks.StockEquals | data_service/store/stocks.py:41-48 | on a stock: true exactly when `stock_id`, `stock_code` and `symbol` agree; on anything else: `AttributeError` |
| Stocks.StockEqualsIgnoresName | data_service/store/stocks.py:41-48 | the stock name plays no part in equality |
| Stocks.StockEqualsEquivalence | data_service/store/stocks.py:41-48 | stock equality is reflexive, symmetric and transitive |
| Stocks.BrokerSetId | data_service/store/stocks.py:59-65 | a string always succeeds: with its trimmed form, or with the generated 12-character id when blank; bytes and the class objects `str` and `bytes` give `TypeError`; anything else gives `AttributeError` |
| Stocks.BrokerSetIdIdempotent | data_service/store/stocks.py:59-65 | a broker id that was set is accepted again unchanged, whatever id would be generated next, assuming generated ids have no surrounding whitespace |
| Stocks.BrokerSetBrokerCode | data_service/store/stocks.py:67-73 | trim-then-require, as `StripRequired` |
| Stocks.BrokerSetBrokerName | data_service/store/stocks.py:75-81 | trim-then-require, as `StripRequired` |
| Stocks.BrokerEquals | data_service/store/stocks.py:87-92 | on a broker: true exactly when `broker_id` and `broker_code` agree; on anything else: `AttributeError` |
| Stocks.BrokerEqualsIgnoresName | data_service/store/stocks.py:87-92 | the broker name plays no part in equality |
| Stocks.BrokerEqualsEquivalence | data_service/store/stocks.py:87-92 | broker equality is reflexive, symmetric and transitive |
| Stocks.StockModelSetId | data_service/store/stocks.py:124-130 | trim-then-require, as `StripRequired` |
| Stocks.StockModelSetStock | data_service/store/stocks.py:132-135 | only a `Stock` is accepted, and returned unchanged; anything else gives `TypeError` |
| Stocks.StockModelSetBroker | data_service/store/stocks.py:137-140 | only a `Broker` is accepted, and returned unchanged; anything else gives `TypeError` |
| Stocks.BuyVolumeSetStockId | data_service/store/stocks.py:153-159 | trim-then-require, as `StripRequired` |
| Stocks.BuyVolumeSetDate | data_service/store/stocks.py:161-164 | every value is accepted unchanged |
| Stocks.BuyVolumeSetIntProperty | data_service/store/stocks.py:166-174 | `None`/`""` gives a null error; a `Stock` or `Broker` object gives `AttributeError`, because comparing it with `""` runs an `__eq__` that reads a missing attribute; any other non-integer gives `TypeError`; a negative integer gives `ValueError`; otherwise the integer |
| Stocks.IntRequired | data_service/store/stocks.py:198-203 | `None`/`""` gives a null error; a `Stock` or `Broker` object gives `AttributeError`, because comparing it with `""` runs an `__eq__` that reads a missing attribute; any other non-integer gives `TypeError`; every integer, negatives included, is returned unchanged |
| Stocks.SellVolumeSetId | data_service/store/stocks.py:190-196 | trim-then-require, as `StripRequired` |
| Stocks.SellVolumeSetInt | data_service/store/stocks.py:198-203 | every integer is accepted unchanged; the null error, `AttributeError` and `TypeError` cases are those of `IntRequired` |
| Stocks.SellVolumeSetTransactionId | data_service/store/stocks.py:205-211 | trim-then-require, as `StripRequired` |
| Stocks.NetVolumeSetId | data_service/store/stocks.py:228-234 | trim-then-require, as `StripRequired` |
| Stocks.NetVolumeSetInt | data_service/store/stocks.py:236-241 | every integer is accepted unchanged; the null error, `AttributeError` and `TypeError` cases are those of `IntRequired` |
| Stocks.NegativeVolumes | data_service/store/stocks.py:172-173 | a negative count is a `ValueError` for buy volumes, but is stored unchanged for sell and net volumes |

## Left out

- Persistence is not modelled. This covers the ndb models, the query
  plumbing, the `ndb.tasklet` wrapping and `get_async().get_result()`. A
  query is modelled as the first matching record of an explicit store value,
  or as the store's fault.
- PlanExist, PlanNameExist, CouponExist: ndb passes a filter value through
  the property's validator when it builds the query. For example,
  `MembershipPlans.plan_id == plan_id` runs `set_id` on `plan_id`. The
  model does not capture the exceptions this can raise inside the `try`,
  which catches only store faults. For example, `plan_exist` on an id with
  more than 64 characters would raise `ValueError` rather than return. This
  is framework behaviour that the shown code does not contain.
- The type check that ndb's own properties run before a validator is not
  modelled. For example, ndb rejects `stock_id = 34` before `set_string`
  sees it. The validators are modelled on the values they would receive if
  called directly.
- StartDateValid: `datetime.now()` is not modelled. The date is passed in as
  `today`, and dates are modelled as day ordinals.
- ExpirationValid: `get_days(days=1)` is not modelled. Its value is passed in
  as `oneDay`.
- BrokerSetId: `create_id(size=12)` is not modelled. Its result is passed in
  as `generated`; only its length is assumed.
- BrokerSetIdIdempotent: it also assumes that generated ids have no
  surrounding whitespace. Without that assumption, re-validating a
  generated id would trim it.
- SetScheduleDay, SetNumber, DiscountValid, ExpirationValid,
  BuyVolumeSetIntProperty, IntRequired: a Python `bool` is treated as
  distinct from `int`. The model does not reproduce Python's `True == 1`
  coercion.
- Lower: only ASCII `A`..`Z` are lower-cased. Python's full Unicode case
  mapping is not modelled.
- The exception messages, and the `self.name` they format, are not
  modelled. `NullErr` stands for the "cannot be Null" `ValueError`.
- MembershipEquals, StockEquals, BrokerEquals: objects other than the
  modelled entity records are not modelled. This includes subclasses, and
  unrelated objects that happen to have the same attribute names.
- Unset (`None`) entity fields are not modelled.
- The contents of `AmountMixin` are not modelled. An amount is one opaque
  value, and `MembershipPlans` does not keep its two amount fields.
- The `__str__` and `__repr__` formatting of the models is not modelled,
  because it is presentation only.
- Declarative defaults are not modelled, because they are not validation
  logic. This covers `auto_now_add` dates and the `default=create_id()`
  transaction id.
- `pinoydesk/store/stocks.py`, `run.py` and the affiliate view tests are
  not part of this model. They are a separate store, the application entry
  point and HTTP-level tests.
- The declarations of `Coupons`, `AccessRights` and `MembershipDailyStats`
  (`memberships.py` lines 244-287) are not modelled. They declare
  no validator of their own, and the setters they reuse (`set_id`,
  `set_amount`) are modelled above. The `Coupon` record stands only for the
  result of `coupon_exist`'s query, and only its `code` is used. The
  `expiration_time` default, which is computed from the clock, is left out
  along with the clock.

## Findings

Each finding pairs a member that models the code as written with a
corrected member that has the intended property proved.

| source | as written | input that shows it | evidently intended | confidence | as-written member | corrected member |
|---|---|---|---|---|---|---|
| data_service/store/memberships.py:111 | `0 < d > 100` rejects only discounts above 100 | `-5` is accepted | discounts limited to 0..100 | high, not executed | Memberships.DiscountValidAcceptsNegative | Memberships.DiscountInRange |
| data_service/store/memberships.py:232 | compares `plan_id` with `other.__class__` | any plan compared with itself gives `False` | compare `plan_id` with `other.plan_id` | high, not executed | Memberships.PlanEqualsNotReflexive | Memberships.PlanEqualsByKey |
| data_service/store/memberships.py:129 | allowed statuses are `paid` and `upaid` | `"unpaid"` raises `TypeError` | `paid` and `unpaid` | high, not executed | Memberships.SetStatusRejectsUnpaid | Memberships.SetStatusIntended |
| data_service/store/memberships.py:117-123 | emptiness and length are checked before trimming | `"   "` is accepted as `""` | trim, then reject blank or over-long ids | medium, not executed | Memberships.SetIdAcceptsBlank | Memberships.SetIdTrimFirst |
| data_service/store/memberships.py:218 | `plan_name` is validated by `set_string`, which keeps case, while `plan_name_exist` lower-cases | a plan named `"Gold"` is not found by `"Gold"` | store plan names lower-cased | medium, not executed | Memberships.PlanNameWithCapitalsNotFound | Memberships.SetPlanName |
