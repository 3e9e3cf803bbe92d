/**
 The server-side bill. Inputs are rupees with any number of decimals; every figure of the bill
 is rounded half up to whole paise.
 */
module Pricing {
  import opened Common

  /** Nearest integer, halves away from zero. */
  function RoundHalfUp(y: real): int {
    if y >= 0.0 then (y + 0.5).Floor else -((0.5 - y).Floor)
  }

  /** Rupees to paise: quantize to two places. */
  function Q(rupees: real): int {
    RoundHalfUp(rupees * 100.0)
  }

  function Rupees(paise: int): real {
    paise as real / 100.0
  }

  lemma RoundMonotone(x: real, y: real)
    requires x <= y
    ensures RoundHalfUp(x) <= RoundHalfUp(y)
  {
  }

  /** A whole number within half a unit of an exact figure, on the far side from zero in a tie. */
  predicate IsNearest(n: int, exact: real) {
    if exact >= 0.0 then exact - 0.5 < n as real <= exact + 0.5 else exact - 0.5 <= n as real < exact + 0.5
  }

  /** Rounding gives that number, and there is no other. */
  lemma RoundIsNearest(y: real, n: int)
    ensures IsNearest(n, y) <==> n == RoundHalfUp(y)
  {
    if y < 0.0 {
      assert (0.5 - y).Floor as real <= 0.5 - y;
    }
  }

  /** Rounding a figure that is already in whole paise changes nothing. */
  lemma QOfRupees(paise: int)
    ensures Q(Rupees(paise)) == paise
  {
    assert Rupees(paise) * 100.0 == paise as real;
  }

  /* ---- GST units ---- */

  /** A percentage as a fraction in ten-thousandths, and a fraction as a percentage in hundredths. */
  function GstPctToFraction(pct: real): int {
    RoundHalfUp(pct / 100.0 * 10000.0)
  }

  function GstFractionToPct(fraction: real): int {
    RoundHalfUp(fraction * 100.0 * 100.0)
  }

  /**
   A rate is stored to four places of the fraction, which are two of the percentage; converting it
   to a fraction and back gives the rate rounded to two places: exact for a real slab.
   */
  lemma GstRoundTrip(pct: real)
    ensures IsNearest(GstPctToFraction(pct), pct * 100.0) && IsNearest(GstFractionToPct(pct / 100.0), pct * 100.0)
    ensures GstFractionToPct(GstPctToFraction(pct) as real / 10000.0) == RoundHalfUp(pct * 100.0)
  {
    var fraction := GstPctToFraction(pct);
    assert pct / 100.0 * 10000.0 == pct * 100.0 == pct / 100.0 * 100.0 * 100.0;
    RoundIsNearest(pct * 100.0, fraction);
    assert fraction as real / 10000.0 * 100.0 * 100.0 == fraction as real;
  }

  /* ---- Fees ---- */

  datatype Config = Config(
    gstRate: real,
    deliveryFee: real,
    freeDeliveryThreshold: real,
    minOrder: real,
    percentFee: bool,
    platformFeeValue: real,
    platformFeeCap: Option<real>,
    smallCartThreshold: real,
    smallCartFee: real,
    handlingFee: real,
    surgeFee: real,
    surgeActive: bool
  )

  /** A zone's overrides; an absent one falls back to the configuration. */
  datatype Zone = Zone(
    deliveryFee: Option<real>,
    freeDeliveryThreshold: Option<real>,
    minOrder: Option<real>,
    platformFeeValue: Option<real>
  )

  datatype Fees = Fees(delivery: real, freeThreshold: real, minOrder: real, platformValue: real)

  function Pick(override: Option<real>, default: real): real {
    if override.Some? then override.value else default
  }

  function EffectiveFees(cfg: Config, zone: Option<Zone>): Fees {
    match zone
    case None => Fees(cfg.deliveryFee, cfg.freeDeliveryThreshold, cfg.minOrder, cfg.platformFeeValue)
    case Some(z) =>
      Fees(Pick(z.deliveryFee, cfg.deliveryFee), Pick(z.freeDeliveryThreshold, cfg.freeDeliveryThreshold),
           Pick(z.minOrder, cfg.minOrder), Pick(z.platformFeeValue, cfg.platformFeeValue))
  }

  function PlatformFee(cfg: Config, value: real, subtotal: int): int {
    if subtotal <= 0 then 0
    else if cfg.percentFee then
      var fee := Rupees(subtotal) * value / 100.0;
      if cfg.platformFeeCap.Some? && cfg.platformFeeCap.value < fee then Q(cfg.platformFeeCap.value) else Q(fee)
    else Q(value)
  }

  function Gst(rate: real, subtotal: int): int {
    Q(Rupees(subtotal) * rate)
  }

  datatype Bill = Bill(
    subtotal: int,
    savings: int,
    delivery: int,
    deliveryWaived: int,
    gst: int,
    platformFee: int,
    smallCart: int,
    handling: int,
    surge: int,
    discount: int,
    total: int,
    minOrder: int
  )

  predicate DeliveryCharged(fees: Fees, subtotal: int) {
    !(subtotal <= 0 || Rupees(subtotal) >= fees.freeThreshold)
  }

  predicate SmallCartCharged(cfg: Config, subtotal: int) {
    subtotal > 0 && cfg.smallCartThreshold > 0.0 && Rupees(subtotal) < cfg.smallCartThreshold
  }

  function ComputeBill(cfg: Config, zone: Option<Zone>, subtotal: real, savings: real, coupon: real): Bill {
    var fees := EffectiveFees(cfg, zone);
    var s := Q(subtotal);
    var gst := Gst(cfg.gstRate, s);
    var delivery := if DeliveryCharged(fees, s) then Q(fees.delivery) else 0;
    var smallCart := if SmallCartCharged(cfg, s) then Q(cfg.smallCartFee) else 0;
    var handling := if s > 0 then Q(cfg.handlingFee) else 0;
    var surge := if s > 0 && cfg.surgeActive then Q(cfg.surgeFee) else 0;
    var platform := Q(Rupees(PlatformFee(cfg, fees.platformValue, s) + smallCart + handling + surge));
    var discount := Q(coupon);
    var total := Q(Rupees(s + delivery + gst + platform - discount));
    var waived := if delivery == 0 && s > 0 then Q(fees.delivery) else 0;
    Bill(s, Q(savings), delivery, waived, gst, platform, smallCart, handling, surge, discount, AtLeastZero(total), Q(fees.minOrder))
  }

  /**
   The itemised parts, each in whole paise, add up: rounding the sums again never moves a paisa,
   and a total is only ever replaced by zero where the discount exceeds the rest.
   */
  lemma PartsAddUp(cfg: Config, zone: Option<Zone>, subtotal: real, savings: real, coupon: real)
    ensures var b := ComputeBill(cfg, zone, subtotal, savings, coupon);
            var parts := b.subtotal + b.delivery + b.gst + b.platformFee - b.discount;
            && b.total == (if parts < 0 then 0 else parts)
            && b.platformFee == PlatformFee(cfg, EffectiveFees(cfg, zone).platformValue, b.subtotal)
                                + b.smallCart + b.handling + b.surge
  {
    hide Q, PlatformFee, Gst;
    var b := ComputeBill(cfg, zone, subtotal, savings, coupon);
    QOfRupees(PlatformFee(cfg, EffectiveFees(cfg, zone).platformValue, b.subtotal) + b.smallCart + b.handling + b.surge);
    QOfRupees(b.subtotal + b.delivery + b.gst + b.platformFee - b.discount);
  }

  lemma QIsNearest(rupees: real)
    ensures IsNearest(Q(rupees), rupees * 100.0)
  {
    RoundIsNearest(rupees * 100.0, Q(rupees));
  }

  lemma QNear(rupees: real, exact: real)
    requires rupees * 100.0 == exact
    ensures IsNearest(Q(rupees), exact)
  {
    QIsNearest(rupees);
  }

  /** Exact parts of an amount in paise: a percentage of it, and it taxed at a fractional rate. */
  function PercentOf(paise: int, percent: real): real {
    paise as real * percent / 100.0
  }

  function TaxOn(paise: int, rate: real): real {
    paise as real * rate
  }

  /**
   The platform's own fee on a positive subtotal in paise: the given percentage of it, or the cap
   if that is less, or a flat fee.
   */
  lemma PlatformFeeIsExact(cfg: Config, value: real, s: int)
    ensures if s <= 0 then PlatformFee(cfg, value, s) == 0
            else if !cfg.percentFee then IsNearest(PlatformFee(cfg, value, s), value * 100.0)
            else
              var share := PercentOf(s, value);
              if cfg.platformFeeCap.Some? && cfg.platformFeeCap.value * 100.0 < share
              then IsNearest(PlatformFee(cfg, value, s), cfg.platformFeeCap.value * 100.0)
              else IsNearest(PlatformFee(cfg, value, s), share)
  {
    hide Q, IsNearest;
    if s > 0 && cfg.percentFee {
      var fee := Rupees(s) * value / 100.0;
      ShareOfRupees(s, value);
      QNear(fee, PercentOf(s, value));
      if cfg.platformFeeCap.Some? {
        QIsNearest(cfg.platformFeeCap.value);
      }
    } else {
      QIsNearest(value);
    }
  }

  lemma ShareOfRupees(s: int, k: real)
    ensures Rupees(s) * k * 100.0 == TaxOn(s, k)
    ensures Rupees(s) * k / 100.0 * 100.0 == PercentOf(s, k)
  {
  }

  lemma GstIsExact(rate: real, s: int)
    ensures IsNearest(Gst(rate, s), TaxOn(s, rate))
  {
    hide Q, IsNearest;
    ShareOfRupees(s, rate);
    QNear(Rupees(s) * rate, TaxOn(s, rate));
  }

  /** A zone's own amount where it has one, else the platform's. */
  predicate Applies(amount: real, own: Option<real>, platform: real) {
    match own
    case Some(v) => amount == v
    case None => amount == platform
  }

  lemma FeesThatApply(cfg: Config, zone: Option<Zone>)
    ensures var f := EffectiveFees(cfg, zone);
            && Applies(f.delivery, if zone.Some? then zone.value.deliveryFee else None, cfg.deliveryFee)
            && Applies(f.freeThreshold, if zone.Some? then zone.value.freeDeliveryThreshold else None, cfg.freeDeliveryThreshold)
            && Applies(f.minOrder, if zone.Some? then zone.value.minOrder else None, cfg.minOrder)
            && Applies(f.platformValue, if zone.Some? then zone.value.platformFeeValue else None, cfg.platformFeeValue)
  {
  }

  lemma ChargedWhen(cfg: Config, fees: Fees, s: int)
    ensures DeliveryCharged(fees, s) <==> 0.0 < s as real < fees.freeThreshold * 100.0
    ensures SmallCartCharged(cfg, s) <==> 0.0 < s as real < cfg.smallCartThreshold * 100.0
  {
  }

  lemma RoundedParts(cfg: Config, zone: Option<Zone>, subtotal: real, savings: real, coupon: real)
    ensures var b, fees := ComputeBill(cfg, zone, subtotal, savings, coupon), EffectiveFees(cfg, zone);
            && IsNearest(b.subtotal, subtotal * 100.0) && IsNearest(b.savings, savings * 100.0)
            && IsNearest(b.discount, coupon * 100.0) && IsNearest(b.minOrder, fees.minOrder * 100.0)
            && IsNearest(b.gst, TaxOn(b.subtotal, cfg.gstRate))
  {
    hide Q, IsNearest, PlatformFee, Gst, EffectiveFees, Rupees, TaxOn;
    QIsNearest(subtotal);
    QIsNearest(savings);
    QIsNearest(coupon);
    QIsNearest(EffectiveFees(cfg, zone).minOrder);
    GstIsExact(cfg.gstRate, Q(subtotal));
  }

  lemma DeliveryParts(cfg: Config, zone: Option<Zone>, subtotal: real, savings: real, coupon: real)
    ensures var b, fees := ComputeBill(cfg, zone, subtotal, savings, coupon), EffectiveFees(cfg, zone);
            && (if 0.0 < b.subtotal as real < fees.freeThreshold * 100.0
                then IsNearest(b.delivery, fees.delivery * 100.0) else b.delivery == 0)
            && (if b.subtotal > 0 && b.delivery == 0 then IsNearest(b.deliveryWaived, fees.delivery * 100.0) else b.deliveryWaived == 0)
  {
    var fees := EffectiveFees(cfg, zone);
    hide Q, IsNearest, PlatformFee, Gst, EffectiveFees, Rupees, DeliveryCharged, SmallCartCharged;
    ChargedWhen(cfg, fees, Q(subtotal));
    QIsNearest(fees.delivery);
  }

  lemma SurchargeParts(cfg: Config, zone: Option<Zone>, subtotal: real, savings: real, coupon: real)
    ensures var b := ComputeBill(cfg, zone, subtotal, savings, coupon);
            && (if 0.0 < b.subtotal as real < cfg.smallCartThreshold * 100.0
                then IsNearest(b.smallCart, cfg.smallCartFee * 100.0) else b.smallCart == 0)
            && (if b.subtotal > 0 then IsNearest(b.handling, cfg.handlingFee * 100.0) else b.handling == 0)
            && (if b.subtotal > 0 && cfg.surgeActive then IsNearest(b.surge, cfg.surgeFee * 100.0) else b.surge == 0)
  {
    var fees := EffectiveFees(cfg, zone);
    hide Q, IsNearest, PlatformFee, Gst, EffectiveFees, Rupees, DeliveryCharged, SmallCartCharged;
    ChargedWhen(cfg, fees, Q(subtotal));
    QIsNearest(cfg.smallCartFee);
    QIsNearest(cfg.handlingFee);
    QIsNearest(cfg.surgeFee);
  }

  /** Every part of a bill against its definition, in exact paise: when it is charged, and what it is nearest to. */
  lemma BillIsExact(cfg: Config, zone: Option<Zone>, subtotal: real, savings: real, coupon: real, fees: Fees)
    requires Applies(fees.delivery, if zone.Some? then zone.value.deliveryFee else None, cfg.deliveryFee)
    requires Applies(fees.freeThreshold, if zone.Some? then zone.value.freeDeliveryThreshold else None, cfg.freeDeliveryThreshold)
    requires Applies(fees.minOrder, if zone.Some? then zone.value.minOrder else None, cfg.minOrder)
    requires Applies(fees.platformValue, if zone.Some? then zone.value.platformFeeValue else None, cfg.platformFeeValue)
    ensures var b := ComputeBill(cfg, zone, subtotal, savings, coupon);
            var s := b.subtotal as real;
            && IsNearest(b.subtotal, subtotal * 100.0) && IsNearest(b.savings, savings * 100.0)
            && IsNearest(b.discount, coupon * 100.0) && IsNearest(b.minOrder, fees.minOrder * 100.0)
            && IsNearest(b.gst, TaxOn(b.subtotal, cfg.gstRate))
            && (if 0.0 < s < fees.freeThreshold * 100.0 then IsNearest(b.delivery, fees.delivery * 100.0) else b.delivery == 0)
            && (if b.subtotal > 0 && b.delivery == 0 then IsNearest(b.deliveryWaived, fees.delivery * 100.0) else b.deliveryWaived == 0)
            && (if 0.0 < s < cfg.smallCartThreshold * 100.0 then IsNearest(b.smallCart, cfg.smallCartFee * 100.0) else b.smallCart == 0)
            && (if b.subtotal > 0 then IsNearest(b.handling, cfg.handlingFee * 100.0) else b.handling == 0)
            && (if b.subtotal > 0 && cfg.surgeActive then IsNearest(b.surge, cfg.surgeFee * 100.0) else b.surge == 0)
  {
    FeesThatApply(cfg, zone);
    assert fees == EffectiveFees(cfg, zone);
    hide ComputeBill, EffectiveFees, IsNearest, Applies, TaxOn;
    RoundedParts(cfg, zone, subtotal, savings, coupon);
    DeliveryParts(cfg, zone, subtotal, savings, coupon);
    SurchargeParts(cfg, zone, subtotal, savings, coupon);
  }

  /**
   What is left of the platform fee without its surcharges: nothing on an empty basket, else the
   flat fee, or the percentage of the subtotal, or the cap where that is less.
   */
  lemma OwnFeeIsExact(cfg: Config, zone: Option<Zone>, subtotal: real, savings: real, coupon: real, value: real)
    requires Applies(value, if zone.Some? then zone.value.platformFeeValue else None, cfg.platformFeeValue)
    ensures var b := ComputeBill(cfg, zone, subtotal, savings, coupon);
            var own := b.platformFee - b.smallCart - b.handling - b.surge;
            var share := PercentOf(b.subtotal, value);
            if b.subtotal <= 0 then own == 0
            else if !cfg.percentFee then IsNearest(own, value * 100.0)
            else if cfg.platformFeeCap.Some? && cfg.platformFeeCap.value * 100.0 < share then IsNearest(own, cfg.platformFeeCap.value * 100.0)
            else IsNearest(own, share)
  {
    FeesThatApply(cfg, zone);
    assert value == EffectiveFees(cfg, zone).platformValue;
    hide ComputeBill, EffectiveFees, IsNearest, Applies, PlatformFee, PercentOf;
    PartsAddUp(cfg, zone, subtotal, savings, coupon);
    PlatformFeeIsExact(cfg, value, ComputeBill(cfg, zone, subtotal, savings, coupon).subtotal);
  }

  /** No configured amount or rate is negative. */
  predicate NonNegative(cfg: Config, fees: Fees) {
    && cfg.gstRate >= 0.0 && fees.delivery >= 0.0 && fees.platformValue >= 0.0
    && (cfg.platformFeeCap.Some? ==> cfg.platformFeeCap.value >= 0.0)
    && cfg.smallCartFee >= 0.0 && cfg.handlingFee >= 0.0 && cfg.surgeFee >= 0.0
  }

  lemma ScaledMonotone(a: real, b: real, k: real)
    requires a <= b && k >= 0.0
    ensures a * k <= b * k
  {
  }

  lemma QMonotone(x: real, y: real)
    requires x <= y
    ensures Q(x) <= Q(y)
  {
    RoundMonotone(x * 100.0, y * 100.0);
  }

  lemma QNonNegative(x: real)
    requires x >= 0.0
    ensures Q(x) >= 0
  {
  }

  lemma RupeesMonotone(a: int, b: int)
    requires a <= b
    ensures Rupees(a) <= Rupees(b)
  {
  }

  lemma GstMonotone(a: int, b: int, rate: real)
    requires a <= b && rate >= 0.0
    ensures Gst(rate, a) <= Gst(rate, b)
  {
    RupeesMonotone(a, b);
    hide Q, Rupees;
    ScaledMonotone(Rupees(a), Rupees(b), rate);
    QMonotone(Rupees(a) * rate, Rupees(b) * rate);
  }

  /** The platform fee never falls as the subtotal grows, through its percentage, its cap and its rounding. */
  lemma PlatformFeeMonotone(cfg: Config, value: real, a: int, b: int)
    requires a <= b && value >= 0.0 && (cfg.platformFeeCap.Some? ==> cfg.platformFeeCap.value >= 0.0)
    ensures PlatformFee(cfg, value, a) <= PlatformFee(cfg, value, b)
  {
    RupeesMonotone(a, b);
    assert b > 0 ==> Rupees(b) >= 0.0;
    hide Q, Rupees;
    QNonNegative(value);
    ScaledMonotone(Rupees(a), Rupees(b), value);
    var feeA, feeB := Rupees(a) * value / 100.0, Rupees(b) * value / 100.0;
    assert feeA <= feeB;
    QMonotone(feeA, feeB);
    if b > 0 {
      ScaledMonotone(0.0, Rupees(b), value);
      QNonNegative(feeB);
    }
    if cfg.platformFeeCap.Some? {
      var cap := cfg.platformFeeCap.value;
      QNonNegative(cap);
      if feeA <= cap {
        QMonotone(feeA, cap);
      }
    }
  }

  /**
   A larger basket may cost less, but only where a fee stops applying: the total falls by no
   more than the delivery fee, if the basket crosses the free-delivery threshold, plus the
   small-cart fee, if it crosses the small-cart threshold. The delivery fee so saved is the one
   the larger bill shows as waived.
   */
  lemma InversionIsBounded(cfg: Config, zone: Option<Zone>, s1: real, s2: real, savings1: real, savings2: real, coupon: real)
    requires s1 <= s2 && NonNegative(cfg, EffectiveFees(cfg, zone))
    ensures var fees := EffectiveFees(cfg, zone);
            var small := ComputeBill(cfg, zone, s1, savings1, coupon);
            var large := ComputeBill(cfg, zone, s2, savings2, coupon);
            var delivery := if DeliveryCharged(fees, small.subtotal) && !DeliveryCharged(fees, large.subtotal)
                            then Q(fees.delivery) else 0;
            var smallCart := if SmallCartCharged(cfg, small.subtotal) && !SmallCartCharged(cfg, large.subtotal)
                             then Q(cfg.smallCartFee) else 0;
            && large.total >= small.total - delivery - smallCart
            && (delivery > 0 ==> delivery == small.delivery == large.deliveryWaived)
  {
    hide Q, PlatformFee, Rupees, Gst;
    PartsAddUp(cfg, zone, s1, savings1, coupon);
    PartsAddUp(cfg, zone, s2, savings2, coupon);
    var fees := EffectiveFees(cfg, zone);
    var a, b := Q(s1), Q(s2);
    QMonotone(s1, s2);
    GstMonotone(a, b, cfg.gstRate);
    PlatformFeeMonotone(cfg, fees.platformValue, a, b);
    QNonNegative(fees.delivery);
    QNonNegative(cfg.smallCartFee);
    QNonNegative(cfg.handlingFee);
    QNonNegative(cfg.surgeFee);
    var small := ComputeBill(cfg, zone, s1, savings1, coupon);
    var large := ComputeBill(cfg, zone, s2, savings2, coupon);
    assert small.subtotal <= large.subtotal && small.gst <= large.gst;
    assert small.handling <= large.handling && small.surge <= large.surge;
    assert small.discount == large.discount;
  }

  /* ---- When a larger basket never costs less ---- */

  function TotalOf(cfg: Config, zone: Option<Zone>, coupon: real, subtotal: real): int {
    ComputeBill(cfg, zone, subtotal, 0.0, coupon).total
  }

  /** The total at a subtotal of whole paise. */
  function TotalAt(cfg: Config, zone: Option<Zone>, coupon: real, paise: int): int {
    TotalOf(cfg, zone, coupon, Rupees(paise))
  }

  /** One paisa more does not cost less. */
  predicate RisesAt(cfg: Config, zone: Option<Zone>, coupon: real, paise: int) {
    TotalAt(cfg, zone, coupon, paise) <= TotalAt(cfg, zone, coupon, paise + 1)
  }

  ghost predicate NeverFalls(cfg: Config, zone: Option<Zone>, coupon: real) {
    forall a: real, b: real | a <= b :: TotalOf(cfg, zone, coupon, a) <= TotalOf(cfg, zone, coupon, b)
  }

  /** One paisa more reaches the threshold. */
  predicate JustBelow(threshold: real, paise: int) {
    paise > 0 && Rupees(paise) < threshold <= Rupees(paise + 1)
  }

  /** One paisa more ends a delivery fee or a small-cart fee: at most two subtotals for one configuration. */
  predicate Crosses(cfg: Config, zone: Option<Zone>, paise: int) {
    JustBelow(EffectiveFees(cfg, zone).freeThreshold, paise) || JustBelow(cfg.smallCartThreshold, paise)
  }

  /** The total depends on the subtotal only through its whole paise, and not on the savings shown. */
  lemma TotalSeesPaise(cfg: Config, zone: Option<Zone>, coupon: real, subtotal: real, savings: real)
    ensures ComputeBill(cfg, zone, subtotal, savings, coupon).total == TotalAt(cfg, zone, coupon, Q(subtotal))
  {
    hide Q, PlatformFee, Gst, Rupees;
    QOfRupees(Q(subtotal));
  }

  lemma OnePaisaMore(cfg: Config, zone: Option<Zone>, coupon: real, n: int)
    requires NonNegative(cfg, EffectiveFees(cfg, zone)) && !Crosses(cfg, zone, n)
    ensures TotalAt(cfg, zone, coupon, n) <= TotalAt(cfg, zone, coupon, n + 1)
  {
    RupeesMonotone(n, n + 1);
    hide Q, PlatformFee, Gst, Rupees;
    QOfRupees(n);
    QOfRupees(n + 1);
    InversionIsBounded(cfg, zone, Rupees(n), Rupees(n + 1), 0.0, 0.0, coupon);
  }

  lemma {:induction false} UpFrom(cfg: Config, zone: Option<Zone>, coupon: real, a: int, b: int)
    requires a <= b && NonNegative(cfg, EffectiveFees(cfg, zone))
    requires forall n: int | Crosses(cfg, zone, n) :: RisesAt(cfg, zone, coupon, n)
    ensures TotalAt(cfg, zone, coupon, a) <= TotalAt(cfg, zone, coupon, b)
    decreases b - a
  {
    hide TotalAt, Crosses;
    if a < b {
      UpFrom(cfg, zone, coupon, a, b - 1);
      if !Crosses(cfg, zone, b - 1) {
        OnePaisaMore(cfg, zone, coupon, b - 1);
      }
    }
  }

  /** The sum of the parts of a bill, before a negative one is replaced by zero. */
  function PartsAt(cfg: Config, zone: Option<Zone>, coupon: real, paise: int): int {
    var b := ComputeBill(cfg, zone, Rupees(paise), 0.0, coupon);
    b.subtotal + b.delivery + b.gst + b.platformFee - b.discount
  }

  /** The fees that end with one paisa more, and what that paisa adds: itself, tax and percentage fee. */
  function FeesEnding(cfg: Config, zone: Option<Zone>, paise: int): int {
    var fees := EffectiveFees(cfg, zone);
    (if JustBelow(fees.freeThreshold, paise) then Q(fees.delivery) else 0)
    + (if JustBelow(cfg.smallCartThreshold, paise) then Q(cfg.smallCartFee) else 0)
  }

  function PaisaAdds(cfg: Config, zone: Option<Zone>, paise: int): int {
    var value := EffectiveFees(cfg, zone).platformValue;
    1 + Gst(cfg.gstRate, paise + 1) - Gst(cfg.gstRate, paise) + PlatformFee(cfg, value, paise + 1) - PlatformFee(cfg, value, paise)
  }

  lemma PartsStep(cfg: Config, zone: Option<Zone>, coupon: real, n: int)
    requires n > 0
    ensures PartsAt(cfg, zone, coupon, n + 1) == PartsAt(cfg, zone, coupon, n) + PaisaAdds(cfg, zone, n) - FeesEnding(cfg, zone, n)
  {
    RupeesMonotone(n, n + 1);
    hide Q, PlatformFee, Gst, Rupees;
    QOfRupees(n);
    QOfRupees(n + 1);
    PartsAddUp(cfg, zone, Rupees(n), 0.0, coupon);
    PartsAddUp(cfg, zone, Rupees(n + 1), 0.0, coupon);
  }

  /** Nothing is owed there anyway, or the fees that end are no more than what the paisa adds. */
  predicate CoversItsFees(cfg: Config, zone: Option<Zone>, coupon: real, paise: int) {
    PartsAt(cfg, zone, coupon, paise) <= 0 || FeesEnding(cfg, zone, paise) <= PaisaAdds(cfg, zone, paise)
  }

  lemma RisesIffCovered(cfg: Config, zone: Option<Zone>, coupon: real, n: int)
    requires n > 0
    ensures RisesAt(cfg, zone, coupon, n) <==> CoversItsFees(cfg, zone, coupon, n)
  {
    hide Q, PlatformFee, Gst, Rupees, PaisaAdds, FeesEnding;
    PartsStep(cfg, zone, coupon, n);
    PartsAddUp(cfg, zone, Rupees(n), 0.0, coupon);
    PartsAddUp(cfg, zone, Rupees(n + 1), 0.0, coupon);
  }

  lemma RisesWhenNeverFalling(cfg: Config, zone: Option<Zone>, coupon: real, n: int)
    requires NeverFalls(cfg, zone, coupon)
    ensures RisesAt(cfg, zone, coupon, n)
  {
    RupeesMonotone(n, n + 1);
    hide TotalOf, Rupees;
  }

  lemma NeverFallsWhenRising(cfg: Config, zone: Option<Zone>, coupon: real)
    requires NonNegative(cfg, EffectiveFees(cfg, zone))
    requires forall n: int | Crosses(cfg, zone, n) :: RisesAt(cfg, zone, coupon, n)
    ensures NeverFalls(cfg, zone, coupon)
  {
    hide Q, PlatformFee, Gst, Rupees, TotalAt, Crosses, ComputeBill;
    forall a: real, b: real | a <= b
      ensures TotalOf(cfg, zone, coupon, a) <= TotalOf(cfg, zone, coupon, b)
    {
      QMonotone(a, b);
      TotalSeesPaise(cfg, zone, coupon, a, 0.0);
      TotalSeesPaise(cfg, zone, coupon, b, 0.0);
      UpFrom(cfg, zone, coupon, Q(a), Q(b));
    }
  }

  /**
   No basket ever costs more than a larger one exactly when, at the single paisa that reaches the
   free-delivery threshold or the small-cart threshold, the fees that end are no more than that
   paisa, the tax and the percentage fee it adds, or nothing is owed there.
   */
  lemma NeverFallsIff(cfg: Config, zone: Option<Zone>, coupon: real)
    requires NonNegative(cfg, EffectiveFees(cfg, zone))
    ensures NeverFalls(cfg, zone, coupon)
       <==> forall n: int | Crosses(cfg, zone, n) :: CoversItsFees(cfg, zone, coupon, n)
  {
    hide NeverFalls, CoversItsFees, RisesAt, EffectiveFees, NonNegative;
    forall n: int | Crosses(cfg, zone, n)
      ensures CoversItsFees(cfg, zone, coupon, n) <==> RisesAt(cfg, zone, coupon, n)
    {
      RisesIffCovered(cfg, zone, coupon, n);
    }
    if NeverFalls(cfg, zone, coupon) {
      forall n: int | Crosses(cfg, zone, n)
        ensures RisesAt(cfg, zone, coupon, n)
      {
        RisesWhenNeverFalling(cfg, zone, coupon, n);
      }
    }
    if forall n: int | Crosses(cfg, zone, n) :: RisesAt(cfg, zone, coupon, n) {
      NeverFallsWhenRising(cfg, zone, coupon);
    }
  }

  /** The inversion is real: with the default configuration 498.99 costs 44.99 more than 499.00. */
  lemma LargerBasketCanCostLess(cfg: Config)
    requires cfg == Config(0.18, 45.0, 499.0, 0.0, false, 0.0, None, 0.0, 0.0, 0.0, 0.0, false)
    ensures TotalOf(cfg, None, 0.0, 498.99) == 63381 && TotalOf(cfg, None, 0.0, 499.0) == 58882
    ensures !NeverFalls(cfg, None, 0.0)
  {
    PartsAddUp(cfg, None, 498.99, 0.0, 0.0);
    PartsAddUp(cfg, None, 499.0, 0.0, 0.0);
    assert TotalOf(cfg, None, 0.0, 498.99) == 63381;
    assert TotalOf(cfg, None, 0.0, 499.0) == 58882;
  }
}
