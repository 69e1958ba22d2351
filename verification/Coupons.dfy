/** Coupons: the checks of Apply and the discount arithmetic. Amounts are exact reals. */
module Coupons {
  import opened Common

  datatype DiscountType = Fixed | Percentage | OtherDiscount(text: string)

  datatype Coupon = Coupon(
    discountType: DiscountType, discountValue: real, minOrderAmount: real, maxUsage: int, usedCount: int,
    expiresAt: Option<int>)

  // Rows are keyed by their code, which is unique.
  type Coupons = map<string, Coupon>

  function Discount(c: Coupon, total: real): real {
    match c.discountType
    case Fixed => if c.discountValue > total then total else c.discountValue
    case Percentage => total * c.discountValue / 100.0
    case OtherDiscount(_) => 0.0
  }

  function Apply(coupons: Coupons, code: string, total: real, now: int): Result<real> {
    if code !in coupons then Err(CouponNotFound)
    else
      var c := coupons[code];
      if c.expiresAt.Some? && c.expiresAt.value < now then Err(CouponExpired)
      else if c.maxUsage > 0 && c.usedCount >= c.maxUsage then Err(CouponMaxUsage)
      else if total < c.minOrderAmount then Err(CouponMinOrder)
      else Ok(Discount(c, total))
  }

  // What the creation request validates.
  predicate Creatable(code: string, c: Coupon) {
    && code != ""
    && !c.discountType.OtherDiscount?
    && c.discountValue > 0.0
    && c.minOrderAmount >= 0.0
    && c.maxUsage >= 0
    && c.usedCount == 0
  }

  function Create(coupons: Coupons, code: string, c: Coupon): Coupons {
    if !Creatable(code, c) || code in coupons then coupons else coupons[code := c]
  }

  function IncrUsedCount(coupons: Coupons, code: string): Coupons {
    if code in coupons then coupons[code := coupons[code].(usedCount := coupons[code].usedCount + 1)] else coupons
  }

  // A discount is never negative, and it exceeds the total only for a percentage above one hundred,
  // which creation does not rule out.
  lemma DiscountBounds(c: Coupon, total: real)
    requires c.discountValue > 0.0 && total >= 0.0
    ensures 0.0 <= Discount(c, total)
    ensures Discount(c, total) <= total <==> !c.discountType.Percentage? || c.discountValue <= 100.0 || total == 0.0
  {
    if c.discountType.Percentage? {
      var v := c.discountValue;
      ProductSign(total, v);
      ProductSign(total, v - 100.0);
      ProductSign(total, 100.0 - v);
      assert total * v - total * 100.0 == total * (v - 100.0) == -(total * (100.0 - v));
    }
  }

  lemma ProductSign(x: real, y: real)
    ensures x > 0.0 && y > 0.0 ==> x * y > 0.0
    ensures x >= 0.0 && y >= 0.0 ==> x * y >= 0.0
    ensures x == 0.0 ==> x * y == 0.0
  {
  }

  // When a coupon is refused, and with which error: unknown, expired, used up, below the minimum, in
  // this order of precedence.
  lemma ApplyRefusals(coupons: Coupons, code: string, total: real, now: int)
    ensures code !in coupons ==> Apply(coupons, code, total, now) == Err(CouponNotFound)
    ensures code in coupons ==>
              var c, r := coupons[code], Apply(coupons, code, total, now);
              var expired := c.expiresAt.Some? && c.expiresAt.value < now;
              var usedUp := c.maxUsage > 0 && c.usedCount >= c.maxUsage;
              && (r == Err(CouponExpired) <==> expired)
              && (r == Err(CouponMaxUsage) <==> !expired && usedUp)
              && (r == Err(CouponMinOrder) <==> !expired && !usedUp && total < c.minOrderAmount)
              && (r.Ok? <==> !expired && !usedUp && total >= c.minOrderAmount)
  {
  }

  lemma DiscountExact(c: Coupon, total: real)
    ensures c.discountType == Fixed ==> Discount(c, total) == if total < c.discountValue then total else c.discountValue
    ensures c.discountType == Percentage ==> Discount(c, total) * 100.0 == total * c.discountValue
    ensures c.discountType.OtherDiscount? ==> Discount(c, total) == 0.0
  {
  }

  // The amount an accepted coupon takes off.
  lemma AppliedAmount(coupons: Coupons, code: string, total: real, now: int)
    requires code in coupons && Apply(coupons, code, total, now).Ok?
    ensures var c, d := coupons[code], Apply(coupons, code, total, now).value;
            && (c.discountType == Fixed ==> d == if total < c.discountValue then total else c.discountValue)
            && (c.discountType == Percentage ==> d * 100.0 == total * c.discountValue)
            && (c.discountType.OtherDiscount? ==> d == 0.0)
  {
    DiscountExact(coupons[code], total);
  }
}
