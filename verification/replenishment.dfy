/** The replenishment engine: from an item, its sales snapshot, the active
    policy and today's day number to a reorder recommendation.

    The application divides by 365 in floating point and rounds up with
    Math.ceil; here every "run rate times days" quantity is the exact
    ceiling of qty * days / 365 over the integers. */
module Replenishment {
  import opened Common
  import opened Domain

  const DaysPerYear: int := 365
  const ForecastDays: int := 60
  /** Days since the last sale taken for an item that has never been sold. */
  const NeverSoldDays: int := 9999
  const SlowMoverPrefix: string := "Poco movimentato: "

  function Max(a: int, b: int): int {
    if a >= b then a else b
  }

  /** The ceiling of a / b, for a positive divisor. */
  function CeilDiv(a: int, b: int): int
    requires b > 0
  {
    -((-a) / b)
  }

  /** CeilDiv(a, b) is the least multiple count covering a. */
  lemma CeilDivBounds(a: int, b: int)
    requires b > 0
    ensures (CeilDiv(a, b) - 1) * b < a <= CeilDiv(a, b) * b
  {
  }

  lemma CeilDivMonotone(a: int, a': int, b: int)
    requires b > 0 && a <= a'
    ensures CeilDiv(a, b) <= CeilDiv(a', b)
  {
    var c, c' := CeilDiv(a, b), CeilDiv(a', b);
    if c > c' {
      assert (c - 1) * b >= c' * b by {
        assert c - 1 >= c';
        MulMonotone(c', c - 1, b);
      }
      assert false;
    }
  }

  lemma MulMonotone(x: int, y: int, b: int)
    requires x <= y && b > 0
    ensures x * b <= y * b
  {
  }

  /** The ceiling of an exact multiple is its quotient. */
  lemma CeilDivOfMultiple(c: int, b: int)
    requires b > 0
    ensures CeilDiv(c * b, b) == c
  {
    var r := CeilDiv(c * b, b);
    if r < c {
      MulMonotone(r, c - 1, b);
    } else if r > c {
      MulMonotone(c, r - 1, b);
    }
  }

  // ---------------------------------------------------------------------
  // Intermediate quantities

  /** Quantity sold in the year with negative imports clamped to zero. */
  function EffectiveQty(sale: SalesSnapshot): int {
    Max(0, sale.qtySold365)
  }

  function EffectiveValue(sale: SalesSnapshot): int {
    Max(0, sale.valueSold365)
  }

  /** The daily run rate: quantity sold over 365 days (simple average; the
      weighted and smoothing methods are not distinguished). */
  function DailyRunRate(sale: SalesSnapshot): real {
    var q := EffectiveQty(sale);
    if q > 0 then q as real / DaysPerYear as real else 0.0
  }

  /** ceil(dailyRunRate * days), the quantity needed to cover `days` days. */
  function Cover(effQty: int, days: int): int {
    CeilDiv(effQty * days, DaysPerYear)
  }

  /** The item's own lead time if it has one (0 included), else the policy default. */
  function LeadTimeDays(item: Item, policy: PolicyParams): int {
    match item.leadTimeDays
    case Some(d) => d
    case None => policy.leadTimeDefaultDays
  }

  function SafetyStock(sale: SalesSnapshot, policy: PolicyParams): int {
    Cover(EffectiveQty(sale), policy.safetyStockDays)
  }

  function LeadTimeCover(item: Item, sale: SalesSnapshot, policy: PolicyParams): int {
    Cover(EffectiveQty(sale), LeadTimeDays(item, policy))
  }

  function Forecast60(sale: SalesSnapshot): int {
    Cover(EffectiveQty(sale), ForecastDays)
  }

  /** Stock on hand not already reserved, never negative. */
  function Available(item: Item): int {
    Max(0, item.currentStock - item.reservedQty)
  }

  /** Target stock (lead-time cover + safety stock + 60-day forecast) minus available stock. */
  function Gap(item: Item, sale: SalesSnapshot, policy: PolicyParams): int {
    LeadTimeCover(item, sale, policy) + SafetyStock(sale, policy) + Forecast60(sale) - Available(item)
  }

  // ---------------------------------------------------------------------
  // Purchasing-constraint rounding

  /** Rounds a positive gap to the purchasing constraints of the item. */
  function RoundOrder(gap: int, minQty: int, multiple: int, strategy: RoundingStrategy): (r: int)
    requires gap > 0 && multiple >= 1
    ensures r >= gap && r >= minQty
  {
    match strategy
    case ToMinThenMultiple =>
      Max(minQty, CeilDiv(gap, multiple) * multiple)
    case ToMultiple =>
      var gapOrMin := Max(gap, minQty);
      if gapOrMin % multiple != 0 then CeilDiv(gapOrMin, multiple) * multiple else gapOrMin
  }

  /** TO_MULTIPLE yields the smallest multiple of `multiple` that is at least max(gap, minQty). */
  lemma ToMultipleIsSmallestMultiple(gap: int, minQty: int, multiple: int)
    requires gap > 0 && multiple >= 1
    ensures var r := RoundOrder(gap, minQty, multiple, ToMultiple);
      && r % multiple == 0
      && r >= Max(gap, minQty)
      && r - multiple < Max(gap, minQty)
      && r == CeilDiv(Max(gap, minQty), multiple) * multiple
  {
    var g := Max(gap, minQty);
    var c := CeilDiv(g, multiple);
    if g % multiple == 0 {
      assert g == (g / multiple) * multiple;
      CeilDivOfMultiple(g / multiple, multiple);
    } else {
      MulModZero(c, multiple);
    }
  }

  lemma MulModZero(c: int, b: int)
    requires b > 0
    ensures (c * b) % b == 0
  {
    var q, m := (c * b) / b, (c * b) % b;
    assert c * b == q * b + m;
    if m != 0 {
      assert (c - q) * b == m;
      if c - q >= 1 {
        MulMonotone(1, c - q, b);
      } else {
        MulMonotone(c - q, 0, b);
      }
    }
  }

  /** TO_MIN_THEN_MULTIPLE is the larger of the minimum and the gap rounded up to the
      multiple: `m` below is the smallest multiple of `multiple` covering the gap, and the
      order is `m` unless the minimum exceeds it. */
  lemma ToMinThenMultipleMeaning(gap: int, minQty: int, multiple: int)
    requires gap > 0 && multiple >= 1
    ensures var r := RoundOrder(gap, minQty, multiple, ToMinThenMultiple);
      var m := CeilDiv(gap, multiple) * multiple;
      && m % multiple == 0 && m >= gap && m - multiple < gap
      && r >= m && r >= minQty
      && (r == minQty || r == m)
      && (minQty <= m ==> r == m)
  {
    MulModZero(CeilDiv(gap, multiple), multiple);
    CeilDivBounds(gap, multiple);
  }

  /** Gap 6, minimum 7, multiple 10: the gap rounds to 10, above the minimum, so 10 is ordered. */
  lemma ToMinThenMultipleAboveMinimum()
    ensures RoundOrder(6, 7, 10, ToMinThenMultiple) == 10
  {
  }

  /** TO_MULTIPLE never orders less than TO_MIN_THEN_MULTIPLE, and the two agree
      whenever the gap already reaches the minimum order quantity. */
  lemma StrategiesCompared(gap: int, minQty: int, multiple: int)
    requires gap > 0 && multiple >= 1
    ensures RoundOrder(gap, minQty, multiple, ToMultiple) >= RoundOrder(gap, minQty, multiple, ToMinThenMultiple)
    ensures gap >= minQty ==>
      RoundOrder(gap, minQty, multiple, ToMultiple) == RoundOrder(gap, minQty, multiple, ToMinThenMultiple)
  {
    ToMultipleIsSmallestMultiple(gap, minQty, multiple);
    CeilDivMonotone(gap, Max(gap, minQty), multiple);
    MulMonotone(CeilDiv(gap, multiple), CeilDiv(Max(gap, minQty), multiple), multiple);
  }

  /** The two strategies are not aliases: multiple 5, minimum 7, gap 2 gives 10 against 7. */
  lemma StrategiesDiverge()
    ensures RoundOrder(2, 7, 5, ToMultiple) == 10
    ensures RoundOrder(2, 7, 5, ToMinThenMultiple) == 7
  {
  }

  // ---------------------------------------------------------------------
  // Slow movers

  function DaysSinceLastSale(sale: SalesSnapshot, today: int): int {
    match sale.lastSaleDate
    case Some(d) => today - d
    case None => NeverSoldDays
  }

  /** C1: fewer units sold than the policy threshold. */
  predicate LowQuantity(sale: SalesSnapshot, policy: PolicyParams) {
    EffectiveQty(sale) < policy.slowMoverQtyThreshold
  }

  /** C2: last sale older than the policy threshold. */
  predicate StaleSale(sale: SalesSnapshot, policy: PolicyParams, today: int) {
    DaysSinceLastSale(sale, today) > policy.slowMoverDaysSinceLastSale
  }

  /** C3: revenue under a positive minimum; it only adds text to the reason. */
  predicate LowRevenue(sale: SalesSnapshot, policy: PolicyParams) {
    policy.minRevenueThreshold > 0 && EffectiveValue(sale) < policy.minRevenueThreshold
  }

  predicate IsSlowMover(sale: SalesSnapshot, policy: PolicyParams, today: int) {
    LowQuantity(sale, policy) && StaleSale(sale, policy, today)
  }

  /** The reason text lists the conditions that hold; the sold quantity is the raw imported one. */
  function SlowMoverReason(sale: SalesSnapshot, policy: PolicyParams, today: int): (r: string)
    ensures SlowMoverPrefix <= r
  {
    var reasons :=
      (if LowQuantity(sale, policy)
       then ["vendute " + IntToString(sale.qtySold365) + "/" + IntToString(policy.slowMoverQtyThreshold) + " u."]
       else [])
      + (if StaleSale(sale, policy, today)
         then ["ultima vendita " + IntToString(DaysSinceLastSale(sale, today)) + "/"
               + IntToString(policy.slowMoverDaysSinceLastSale) + "gg fa"]
         else [])
      + (if LowRevenue(sale, policy) then ["valore < " + IntToString(policy.minRevenueThreshold) + "€"] else []);
    SlowMoverPrefix + Join(reasons, ", ") + "."
  }

  // ---------------------------------------------------------------------
  // The recommendation

  /** The purchasing recommendation before the slow-mover override. */
  function BaseRecommendation(item: Item, sale: SalesSnapshot, policy: PolicyParams): (r: int)
    requires item.orderMultiple >= 1
    ensures r >= 0
  {
    if item.reorderBlocked then 0
    else
      var gap := Gap(item, sale, policy);
      if gap > 0 then RoundOrder(gap, item.minOrderQty, item.orderMultiple, policy.roundingStrategy) else 0
  }

  /** The engine. `today` is the day number of "now". */
  function Calculate(item: Item, sale: SalesSnapshot, policy: PolicyParams, today: int): (r: Calculation)
    requires item.orderMultiple >= 1
    ensures r.itemId == item.id
    ensures r.recommendedOrderQty >= 0
    ensures r.recommendedOrderQty > 0 <==>
      !item.reorderBlocked && !IsSlowMover(sale, policy, today) && Gap(item, sale, policy) > 0
    ensures r.recommendedOrderQty > 0 ==>
      r.recommendedOrderQty >= Gap(item, sale, policy) && r.recommendedOrderQty >= item.minOrderQty
    ensures r.slowMoverFlag <==> LowQuantity(sale, policy) && StaleSale(sale, policy, today)
    ensures r.slowMoverFlag ==> r.recommendedOrderQty == 0 && SlowMoverPrefix <= r.slowMoverReason
    ensures !r.slowMoverFlag ==> r.slowMoverReason == ""
  {
    var slow := IsSlowMover(sale, policy, today);
    Calculation(
      id := "calc-" + item.id,
      itemId := item.id,
      dailyRunRate := DailyRunRate(sale),
      forecast60d := Forecast60(sale),
      safetyStock := SafetyStock(sale, policy),
      leadTimeCoverQty := LeadTimeCover(item, sale, policy),
      recommendedOrderQty := if slow then 0 else BaseRecommendation(item, sale, policy),
      slowMoverFlag := slow,
      slowMoverReason := if slow then SlowMoverReason(sale, policy, today) else "")
  }

  // ---------------------------------------------------------------------
  // Properties

  /** A blocked item is never reordered, whatever its stock, sales or policy. */
  lemma BlockedNeverReordered(item: Item, sale: SalesSnapshot, policy: PolicyParams, today: int)
    requires item.orderMultiple >= 1 && item.reorderBlocked
    ensures Calculate(item, sale, policy, today).recommendedOrderQty == 0
  {
  }

  /** No order when target stock is already covered. */
  lemma CoveredGapNeverReordered(item: Item, sale: SalesSnapshot, policy: PolicyParams, today: int)
    requires item.orderMultiple >= 1 && Gap(item, sale, policy) <= 0
    ensures Calculate(item, sale, policy, today).recommendedOrderQty == 0
  {
  }

  /** A lead time of 0 on the item means no lead-time cover; only a missing
      lead time takes the policy default. */
  lemma ZeroLeadTimeIsNotDefaulted(item: Item, sale: SalesSnapshot, policy: PolicyParams, today: int)
    requires item.orderMultiple >= 1
    ensures item.leadTimeDays == Some(0) ==> Calculate(item, sale, policy, today).leadTimeCoverQty == 0
    ensures item.leadTimeDays.None? ==>
      Calculate(item, sale, policy, today).leadTimeCoverQty == Cover(EffectiveQty(sale), policy.leadTimeDefaultDays)
  {
    if item.leadTimeDays == Some(0) {
      CeilDivOfMultiple(0, DaysPerYear);
    }
  }

  /** A negative quantity sold computes exactly what zero sold computes; only the
      reason text, which prints the raw figure, can differ. */
  lemma NegativeQtyActsAsZero(item: Item, sale: SalesSnapshot, policy: PolicyParams, today: int)
    requires item.orderMultiple >= 1 && sale.qtySold365 < 0
    ensures var a, b := Calculate(item, sale, policy, today), Calculate(item, sale.(qtySold365 := 0), policy, today);
      a.(slowMoverReason := "") == b.(slowMoverReason := "")
  {
    assert EffectiveQty(sale) == EffectiveQty(sale.(qtySold365 := 0));
  }

  /** A negative value sold computes exactly what zero value sold computes. */
  lemma NegativeValueActsAsZero(item: Item, sale: SalesSnapshot, policy: PolicyParams, today: int)
    requires item.orderMultiple >= 1 && sale.valueSold365 < 0
    ensures Calculate(item, sale, policy, today) == Calculate(item, sale.(valueSold365 := 0), policy, today)
  {
    assert EffectiveValue(sale) == EffectiveValue(sale.(valueSold365 := 0));
  }

  // The concrete case of the application's test: 365 units a year, safety 7 days,
  // default lead time 2 days, item lead time 0.
  const TestPolicy := PolicyParams("policy-test", "Test Policy", SimpleAvg, 365, 0, 1.0, 2, 7, 1, 999, 0, ToMultiple, true)
  const TestSale := SalesSnapshot("sale-1", "item-1", 365, 1000, None, None, "import-1", "", None)
  const ZeroLeadTimeItem := Item("item-1", "SKU-001", None, None, None, Some(0), 1, 1, 0, 0, false, None, "", "")

  lemma ZeroLeadTimeTestCase(today: int)
    ensures Calculate(ZeroLeadTimeItem, TestSale, TestPolicy, today).leadTimeCoverQty == 0
    ensures Calculate(ZeroLeadTimeItem, TestSale, TestPolicy, today).recommendedOrderQty == 67
  {
    TestCaseQuantities();
    assert !IsSlowMover(TestSale, TestPolicy, today);
    assert BaseRecommendation(ZeroLeadTimeItem, TestSale, TestPolicy) == RoundOrder(67, 1, 1, ToMultiple);
  }

  lemma TestCaseQuantities()
    ensures LeadTimeCover(ZeroLeadTimeItem, TestSale, TestPolicy) == 0
    ensures Gap(ZeroLeadTimeItem, TestSale, TestPolicy) == 67
  {
    CoversAtOneUnitADay(ZeroLeadTimeItem, TestSale, TestPolicy);
  }

  /** At one unit a day (365 sold in the year) every cover equals its number of days. */
  lemma CoversAtOneUnitADay(item: Item, sale: SalesSnapshot, policy: PolicyParams)
    requires EffectiveQty(sale) == DaysPerYear
    ensures LeadTimeCover(item, sale, policy) == LeadTimeDays(item, policy)
    ensures SafetyStock(sale, policy) == policy.safetyStockDays
    ensures Forecast60(sale) == ForecastDays
  {
    OneUnitADay(LeadTimeDays(item, policy));
    OneUnitADay(policy.safetyStockDays);
    OneUnitADay(ForecastDays);
  }

  /** Selling 365 units a year covers `days` days with exactly `days` units. */
  lemma OneUnitADay(days: int)
    ensures Cover(DaysPerYear, days) == days
  {
    assert DaysPerYear * days == days * DaysPerYear;
    CeilDivOfMultiple(days, DaysPerYear);
  }

  /** A slow mover with a positive gap is still not reordered: 1 unit sold, never
      sold recently, empty stock. */
  lemma SlowMoverOverridesGap(today: int)
    ensures var item := ZeroLeadTimeItem.(leadTimeDays := None);
      var sale := TestSale.(qtySold365 := 1);
      var policy := TestPolicy.(slowMoverQtyThreshold := 3);
      var r := Calculate(item, sale, policy, today);
      && Gap(item, sale, policy) > 0
      && r.slowMoverFlag && r.recommendedOrderQty == 0 && |r.slowMoverReason| > 0
  {
    var item := ZeroLeadTimeItem.(leadTimeDays := None);
    var sale := TestSale.(qtySold365 := 1);
    var policy := TestPolicy.(slowMoverQtyThreshold := 3);
    assert Forecast60(sale) == 1;
    assert Gap(item, sale, policy) >= 1;
  }
}
