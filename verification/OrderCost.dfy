/**
 The order cost arithmetic in token base units: escrow, taker fee, the signed maximum cost,
 and whether that maximum still covers an order that is filled in parts.
 */
module OrderCost {

  const TAKER_FEE_BPS: int := 700

  function Unit(decimals: nat): (u: nat)
    ensures u > 0
  {
    if decimals == 0 then 1 else 10 * Unit(decimals - 1)
  }

  /** Division of JavaScript bigints: the quotient is truncated toward zero. */
  function BigintDiv(a: int, b: int): int
    requires b > 0
  {
    if a >= 0 then a / b else -((-a) / b)
  }

  function CeilDiv(a: int, b: int): int
    requires b > 0
  {
    BigintDiv(a + b - 1, b)
  }

  /** The fee before rounding, in units of 10^-8 token units. */
  function FeeNumerator(shares: int, price: int, decimals: nat): int {
    TAKER_FEE_BPS * shares * price * (100 - price) * Unit(decimals)
  }

  const FEE_DENOMINATOR: int := 100_000_000

  function TakerFeeUnits(shares: int, price: int, decimals: nat): int {
    CeilDiv(FeeNumerator(shares, price, decimals), FEE_DENOMINATOR)
  }

  function EscrowUnits(shares: int, price: int, decimals: nat): int {
    BigintDiv(shares * price * Unit(decimals), 100)
  }

  function WorstFeePrice(price: int): int {
    if price < 50 then price else 50
  }

  function MaxCostUnits(shares: int, price: int, decimals: nat): int {
    EscrowUnits(shares, price, decimals) + TakerFeeUnits(shares, WorstFeePrice(price), decimals)
  }

  /** The whole shares a spend buys; the spend is an exact rational number of dollars. */
  function SharesForSpend(spendDollars: real, price: int): int {
    if price <= 0 then 0 else (spendDollars * 100.0 / price as real).Floor
  }

  // ----- division -----

  lemma MulMonotone(a: int, b: int, k: int)
    requires a <= b && k >= 0
    ensures a * k <= b * k
  {
  }

  lemma CancelMul(a: int, b: int, k: int)
    requires k > 0 && a * k < b * k
    ensures a < b
  {
    if a >= b {
      MulMonotone(b, a, k);
    }
  }

  lemma CeilMonotone(a: int, b: int, k: int)
    requires 0 <= a <= b && k > 0
    ensures CeilDiv(a, k) <= CeilDiv(b, k)
  {
    CancelMul(CeilDiv(a, k) - 1, CeilDiv(b, k), k);
  }

  lemma FloorMonotone(a: int, b: int, k: int)
    requires 0 <= a <= b && k > 0
    ensures BigintDiv(a, k) <= BigintDiv(b, k)
  {
    CancelMul(BigintDiv(a, k), BigintDiv(b, k) + 1, k);
  }

  lemma FloorSum(a: int, b: int, k: int)
    requires a >= 0 && b >= 0 && k > 0
    ensures BigintDiv(a, k) + BigintDiv(b, k) <= BigintDiv(a + b, k)
  {
    var q := BigintDiv(a, k) + BigintDiv(b, k);
    CancelMul(q, BigintDiv(a + b, k) + 1, k);
  }

  /** Rounding up twice costs at most one unit more than rounding up once. */
  lemma CeilSum(a: int, b: int, k: int)
    requires a >= 0 && b >= 0 && k > 0
    ensures CeilDiv(a, k) + CeilDiv(b, k) <= CeilDiv(a + b, k) + 1
  {
    var q := CeilDiv(a, k) + CeilDiv(b, k) - 2;
    CancelMul(q, CeilDiv(a + b, k), k);
  }

  lemma ExactDiv(q: int, k: int)
    requires q >= 0 && k > 0
    ensures BigintDiv(q * k, k) == q && CeilDiv(q * k, k) == q
  {
    CancelMul(q, BigintDiv(q * k, k) + 1, k);
    CancelMul(BigintDiv(q * k, k), q + 1, k);
    CancelMul(CeilDiv(q * k, k) - 1, q, k);
    CancelMul(q, CeilDiv(q * k, k) + 1, k);
  }

  lemma {:induction false} UnitSum(a: nat, b: nat)
    ensures Unit(a + b) == Unit(a) * Unit(b)
  {
    if a > 0 {
      UnitSum(a - 1, b);
    }
  }

  // ----- collateral and fee laws -----

  lemma EscrowExact(shares: nat, price: nat, decimals: nat)
    requires decimals >= 2
    ensures EscrowUnits(shares, price, decimals) == shares * price * Unit(decimals - 2)
  {
    UnitSum(2, decimals - 2);
    assert Unit(2) == 100 by {
      assert Unit(1) == 10;
    }
    var u := Unit(decimals - 2);
    assert shares * price * Unit(decimals) == (shares * price * u) * 100;
    ExactDiv(shares * price * u, 100);
  }

  /** The two sides of a share are fully collateralised: their escrows sum to one dollar a share. */
  lemma EscrowsSumToPayout(shares: nat, price: nat, decimals: nat)
    requires price <= 100 && decimals >= 2
    ensures EscrowUnits(shares, price, decimals) + EscrowUnits(shares, 100 - price, decimals)
         == shares * Unit(decimals)
  {
    EscrowExact(shares, price, decimals);
    EscrowExact(shares, 100 - price, decimals);
    UnitSum(2, decimals - 2);
    assert Unit(2) == 100 by {
      assert Unit(1) == 10;
    }
    BothSides(shares, price, Unit(decimals - 2));
  }

  lemma BothSides(s: int, p: int, u: int)
    ensures s * p * u + s * (100 - p) * u == s * (100 * u)
  {
    var a, b := s * p, s * (100 - p);
    assert a + b == s * 100;
    assert a * u + b * u == (a + b) * u;
    assert (s * 100) * u == s * (100 * u);
  }

  ghost predicate AlwaysCollateralised(decimals: nat) {
    forall shares: nat, price: nat :: price <= 100 ==>
      EscrowUnits(shares, price, decimals) + EscrowUnits(shares, 100 - price, decimals) == shares * Unit(decimals)
  }

  /** This needs two decimals: below that, cents are finer than units and the escrows can fall short. */
  lemma CollateralisedIffTwoDecimals(decimals: nat)
    ensures AlwaysCollateralised(decimals) <==> decimals >= 2
  {
    if decimals >= 2 {
      forall shares: nat, price: nat | price <= 100
        ensures EscrowUnits(shares, price, decimals) + EscrowUnits(shares, 100 - price, decimals)
             == shares * Unit(decimals)
      {
        EscrowsSumToPayout(shares, price, decimals);
      }
    } else {
      UnitValue(decimals);
      assert EscrowUnits(1, 95, decimals) + EscrowUnits(1, 100 - 95, decimals) < 1 * Unit(decimals);
    }
  }

  /** The fee is the least number of units that is not below 7% of shares * p * (100 - p) / 10^4 dollars. */
  lemma FeeIsCeiling(shares: nat, price: nat, decimals: nat, n: int)
    requires price <= 100
    ensures n >= TakerFeeUnits(shares, price, decimals)
       <==> n * 100_000_000 >= 700 * shares * price * (100 - price) * Unit(decimals)
  {
    var f := FeeNumerator(shares, price, decimals);
    NumeratorAs(shares, price, decimals);
    WorstPrice(price, 100);
    MulNonnegative(shares, price * (100 - price), TAKER_FEE_BPS * Unit(decimals));
    CeilIsLeast(f, FEE_DENOMINATOR, n);
  }

  lemma CeilIsLeast(a: int, b: int, n: int)
    requires a >= 0 && b > 0
    ensures n >= CeilDiv(a, b) <==> n * b >= a
  {
    var q := CeilDiv(a, b);
    assert (q - 1) * b < a <= q * b;
    if n >= q {
      MulMonotone(q, n, b);
    } else {
      MulMonotone(n, q - 1, b);
    }
  }

  /** The escrow is the greatest number of units that is not above p cents a share. */
  lemma EscrowIsFloor(shares: nat, price: nat, decimals: nat, n: int)
    ensures n <= EscrowUnits(shares, price, decimals) <==> n * 100 <= shares * price * Unit(decimals)
  {
    MulNonnegative(shares, price, Unit(decimals));
  }

  lemma FeeSymmetric(shares: int, price: int, decimals: nat)
    ensures TakerFeeUnits(shares, price, decimals) == TakerFeeUnits(shares, 100 - price, decimals)
  {
    var c, u := TAKER_FEE_BPS * shares, Unit(decimals);
    assert c * price * (100 - price) == c * (100 - price) * price;
  }

  /** p(100 - p) over prices up to `cap` is greatest at min(cap, 50). */
  lemma WorstPrice(q: nat, cap: nat)
    requires q <= cap <= 100
    ensures 0 <= q * (100 - q) <= WorstFeePrice(cap) * (100 - WorstFeePrice(cap)) <= 2500
  {
    var w := WorstFeePrice(cap);
    Parabola(w, q);
    Parabola(50, q);
    Parabola(50, w);
    MulNonnegative(q, 100 - q, 1);
    if q <= w {
      MulNonnegative(w - q, 100 - w - q, 1);
    }
  }

  lemma Parabola(w: int, q: int)
    ensures w * (100 - w) - q * (100 - q) == (w - q) * (100 - w - q)
  {
    assert w * (100 - w) == 100 * w - w * w;
    assert q * (100 - q) == 100 * q - q * q;
    assert (w - q) * (100 - w - q) == w * (100 - w - q) - q * (100 - w - q);
    assert w * (100 - w - q) == 100 * w - w * w - w * q;
    assert q * (100 - w - q) == 100 * q - q * w - q * q;
  }

  lemma NumeratorAs(shares: int, price: int, decimals: nat)
    ensures FeeNumerator(shares, price, decimals) == (shares * (price * (100 - price))) * (TAKER_FEE_BPS * Unit(decimals))
  {
    var c, u, s := TAKER_FEE_BPS, Unit(decimals), shares;
    assert c * s * price * (100 - price) == c * (s * (price * (100 - price)));
  }

  /** The fee never exceeds 1.75 cents a share, rounded up. */
  lemma FeeAtMost(shares: nat, price: nat, decimals: nat)
    requires price <= 100
    ensures TakerFeeUnits(shares, price, decimals) <= CeilDiv(175 * shares * Unit(decimals), 10_000)
  {
    WorstPrice(price, 100);
    NumeratorAs(shares, price, decimals);
    var n, top := FeeNumerator(shares, price, decimals), 175 * shares * Unit(decimals);
    MulMonotone(price * (100 - price), 2500, shares);
    MulMonotone(shares * (price * (100 - price)), shares * 2500, TAKER_FEE_BPS * Unit(decimals));
    assert (shares * 2500) * (TAKER_FEE_BPS * Unit(decimals)) == top * 10_000;
    MulNonnegative(shares, price * (100 - price), TAKER_FEE_BPS * Unit(decimals));
    CeilMonotone(n, top * 10_000, FEE_DENOMINATOR);
  }

  lemma MulNonnegative(a: int, b: int, c: int)
    requires a >= 0 && b >= 0 && c >= 0
    ensures a * b >= 0 && (a * b) * c >= 0
  {
  }

  /** The share count is the greatest whose price does not exceed the spend. */
  lemma SharesAreGreatest(spendDollars: real, price: int, n: int)
    requires price > 0
    ensures n <= SharesForSpend(spendDollars, price) <==> (n * price) as real <= spendDollars * 100.0
  {
    var p, cents := price as real, spendDollars * 100.0;
    var q := cents / p;
    assert q * p == cents;
    assert (n * price) as real == n as real * p;
    assert n <= q.Floor <==> n as real <= q;
  }

  // ----- partial fills -----

  /** One execution of part of an order, at the maker's price. */
  datatype Fill = Fill(shares: nat, price: nat)

  function SharesOf(fills: seq<Fill>): nat {
    if fills == [] then 0 else SharesOf(fills[..|fills| - 1]) + fills[|fills| - 1].shares
  }

  function EscrowOf(fills: seq<Fill>, decimals: nat): int {
    if fills == [] then 0
    else
      var f := fills[|fills| - 1];
      EscrowOf(fills[..|fills| - 1], decimals) + EscrowUnits(f.shares, f.price, decimals)
  }

  function FeesOf(fills: seq<Fill>, decimals: nat): int {
    if fills == [] then 0
    else
      var f := fills[|fills| - 1];
      FeesOf(fills[..|fills| - 1], decimals) + TakerFeeUnits(f.shares, f.price, decimals)
  }

  function CostOf(fills: seq<Fill>, decimals: nat): int {
    EscrowOf(fills, decimals) + FeesOf(fills, decimals)
  }

  /** Prices between one cent and the limit, at most 99 cents. */
  predicate WithinLimit(fills: seq<Fill>, limit: nat) {
    limit <= 99 && forall i :: 0 <= i < |fills| ==> 1 <= fills[i].price <= limit
  }

  lemma {:induction false} EscrowCovered(fills: seq<Fill>, limit: nat, decimals: nat)
    requires WithinLimit(fills, limit)
    ensures EscrowOf(fills, decimals) <= EscrowUnits(SharesOf(fills), limit, decimals)
  {
    if fills != [] {
      var init, f, u := fills[..|fills| - 1], fills[|fills| - 1], Unit(decimals);
      EscrowCovered(init, limit, decimals);
      var a, b := SharesOf(init), f.shares;
      EscrowStep(a, b, f.price, limit, u);
    }
  }

  lemma EscrowStep(a: nat, b: nat, price: nat, limit: nat, u: nat)
    requires price <= limit
    ensures BigintDiv(a * limit * u, 100) + BigintDiv(b * price * u, 100) <= BigintDiv((a + b) * limit * u, 100)
  {
    MulMonotone(price, limit, b);
    MulMonotone(b * price, b * limit, u);
    MulNonnegative(a, limit, u);
    MulNonnegative(b, price, u);
    MulNonnegative(b, limit, u);
    FloorMonotone(b * price * u, b * limit * u, 100);
    FloorSum(a * limit * u, b * limit * u, 100);
    assert (a + b) * limit * u == a * limit * u + b * limit * u;
  }

  /** The fee of `shares` at the worst price within the limit. */
  function WorstFee(shares: nat, limit: nat, decimals: nat): int {
    TakerFeeUnits(shares, WorstFeePrice(limit), decimals)
  }

  lemma FillFee(f: Fill, limit: nat, decimals: nat)
    requires f.price <= limit <= 99
    ensures 0 <= FeeNumerator(f.shares, f.price, decimals) <= FeeNumerator(f.shares, WorstFeePrice(limit), decimals)
    ensures TakerFeeUnits(f.shares, f.price, decimals) <= WorstFee(f.shares, limit, decimals)
  {
    var w, c := WorstFeePrice(limit), TAKER_FEE_BPS * Unit(decimals);
    WorstPrice(f.price, limit);
    NumeratorAs(f.shares, f.price, decimals);
    NumeratorAs(f.shares, w, decimals);
    MulMonotone(f.price * (100 - f.price), w * (100 - w), f.shares);
    MulMonotone(f.shares * (f.price * (100 - f.price)), f.shares * (w * (100 - w)), c);
    MulNonnegative(f.shares, f.price * (100 - f.price), c);
    CeilMonotone(FeeNumerator(f.shares, f.price, decimals), FeeNumerator(f.shares, w, decimals), FEE_DENOMINATOR);
  }

  lemma NumeratorSum(a: nat, b: nat, limit: nat, decimals: nat)
    requires limit <= 99
    ensures var w := WorstFeePrice(limit);
      && FeeNumerator(a, w, decimals) >= 0 && FeeNumerator(b, w, decimals) >= 0
      && FeeNumerator(a + b, w, decimals) == FeeNumerator(a, w, decimals) + FeeNumerator(b, w, decimals)
  {
    var w, c := WorstFeePrice(limit), TAKER_FEE_BPS * Unit(decimals);
    var g := w * (100 - w);
    NumeratorAs(a, w, decimals);
    NumeratorAs(b, w, decimals);
    NumeratorAs(a + b, w, decimals);
    WorstPrice(0, limit);
    MulNonnegative(a, g, c);
    MulNonnegative(b, g, c);
    assert ((a + b) * g) * c == (a * g) * c + (b * g) * c;
  }

  lemma {:induction false} FeesCovered(fills: seq<Fill>, limit: nat, decimals: nat)
    requires WithinLimit(fills, limit) && fills != []
    ensures FeesOf(fills, decimals) <= WorstFee(SharesOf(fills), limit, decimals) + |fills| - 1
  {
    var init, f := fills[..|fills| - 1], fills[|fills| - 1];
    FillFee(f, limit, decimals);
    if init == [] {
      assert SharesOf(init) == 0 && FeesOf(init, decimals) == 0;
    } else {
      FeesCovered(init, limit, decimals);
      var w := WorstFeePrice(limit);
      NumeratorSum(SharesOf(init), f.shares, limit, decimals);
      CeilSum(FeeNumerator(SharesOf(init), w, decimals), FeeNumerator(f.shares, w, decimals), FEE_DENOMINATOR);
    }
  }

  /** Filling an order in k parts, each at the limit or better, costs at most the signed maximum
      and k - 1 units of rounding. */
  lemma PartialFillsCovered(fills: seq<Fill>, limit: nat, decimals: nat)
    requires WithinLimit(fills, limit) && fills != []
    ensures CostOf(fills, decimals) <= MaxCostUnits(SharesOf(fills), limit, decimals) + |fills| - 1
  {
    EscrowCovered(fills, limit, decimals);
    FeesCovered(fills, limit, decimals);
  }

  lemma UnitFromSix(decimals: nat)
    requires decimals >= 6
    ensures Unit(decimals) == 1_000_000 * Unit(decimals - 6)
  {
    UnitSum(6, decimals - 6);
    UnitSix();
  }

  lemma MultipleOfDenominator(numerator: int, base: int, unit: int, u: int)
    requires numerator == base * (TAKER_FEE_BPS * unit)
    requires unit == 1_000_000 * u
    ensures numerator % FEE_DENOMINATOR == 0
  {
    var bu := base * u;
    assert numerator == 700_000_000 * bu;
  }

  /** From six decimals on the fee numerator is a whole number of units: no fee is rounded. */
  lemma NoRounding(shares: int, price: int, decimals: nat)
    requires decimals >= 6
    ensures FeeNumerator(shares, price, decimals) % FEE_DENOMINATOR == 0
  {
    UnitFromSix(decimals);
    NumeratorAs(shares, price, decimals);
    MultipleOfDenominator(FeeNumerator(shares, price, decimals), shares * (price * (100 - price)),
                          Unit(decimals), Unit(decimals - 6));
  }

  lemma CeilSumExact(a: int, b: int)
    requires a >= 0 && b >= 0
    requires a % FEE_DENOMINATOR == 0 && b % FEE_DENOMINATOR == 0
    ensures CeilDiv(a, FEE_DENOMINATOR) + CeilDiv(b, FEE_DENOMINATOR) == CeilDiv(a + b, FEE_DENOMINATOR)
  {
  }

  lemma UnitSix()
    ensures Unit(6) == 1_000_000
  {
    assert Unit(1) == 10;
    assert Unit(3) == 1000 by {
      assert Unit(2) == 100;
    }
    UnitSum(3, 3);
  }

  lemma {:induction false} FeesCoveredExactly(fills: seq<Fill>, limit: nat, decimals: nat)
    requires WithinLimit(fills, limit) && decimals >= 6
    ensures FeesOf(fills, decimals) <= WorstFee(SharesOf(fills), limit, decimals)
  {
    var w := WorstFeePrice(limit);
    if fills == [] {
      assert FeeNumerator(0, w, decimals) == 0;
    } else {
      var init, f := fills[..|fills| - 1], fills[|fills| - 1];
      FeesCoveredExactly(init, limit, decimals);
      FillFee(f, limit, decimals);
      NumeratorSum(SharesOf(init), f.shares, limit, decimals);
      NoRounding(SharesOf(init), w, decimals);
      NoRounding(f.shares, w, decimals);
      CeilSumExact(FeeNumerator(SharesOf(init), w, decimals), FeeNumerator(f.shares, w, decimals));
    }
  }

  /** With six decimals or more no split ever costs more than the signed maximum. */
  lemma FundedFromSixDecimals(fills: seq<Fill>, limit: nat, decimals: nat)
    requires WithinLimit(fills, limit) && decimals >= 6
    ensures CostOf(fills, decimals) <= MaxCostUnits(SharesOf(fills), limit, decimals)
  {
    EscrowCovered(fills, limit, decimals);
    FeesCoveredExactly(fills, limit, decimals);
  }

  /** Two one-share fills whose fees each round up by more than their sum does. */
  function Overrun(decimals: nat): seq<Fill> {
    if decimals == 3 || decimals == 4 then [Fill(1, 3), Fill(1, 3)] else [Fill(1, 1), Fill(1, 1)]
  }

  lemma OverrunCosts(decimals: nat)
    requires decimals < 6
    ensures var fills := Overrun(decimals);
      && WithinLimit(fills, fills[0].price)
      && CostOf(fills, decimals) > MaxCostUnits(SharesOf(fills), fills[0].price, decimals)
  {
    var fills := Overrun(decimals);
    TwoFills(fills, decimals);
    UnitValue(decimals);
    if decimals <= 2 {
      FewDecimals(decimals);
    }
  }

  lemma UnitValue(decimals: nat)
    requires decimals < 6
    ensures Unit(decimals) == [1, 10, 100, 1000, 10_000, 100_000][decimals]
  {
    if decimals > 0 {
      UnitValue(decimals - 1);
    }
  }

  lemma FewDecimals(decimals: nat)
    requires decimals <= 2 && Unit(decimals) == [1, 10, 100][decimals]
    ensures 2 * EscrowUnits(1, 1, decimals) >= EscrowUnits(2, 1, decimals)
    ensures 2 * TakerFeeUnits(1, 1, decimals) > TakerFeeUnits(2, 1, decimals)
  {
  }

  lemma TwoFills(fills: seq<Fill>, decimals: nat)
    requires |fills| == 2 && fills[0] == fills[1]
    ensures SharesOf(fills) == 2 * fills[0].shares
    ensures EscrowOf(fills, decimals) == 2 * EscrowUnits(fills[0].shares, fills[0].price, decimals)
    ensures FeesOf(fills, decimals) == 2 * TakerFeeUnits(fills[0].shares, fills[0].price, decimals)
  {
    var one := fills[..1];
    assert one[..0] == [];
    assert SharesOf(one) == fills[0].shares;
    assert EscrowOf(one, decimals) == EscrowUnits(fills[0].shares, fills[0].price, decimals);
    assert FeesOf(one, decimals) == TakerFeeUnits(fills[0].shares, fills[0].price, decimals);
  }

  ghost predicate AlwaysFunded(decimals: nat) {
    forall fills, limit: nat :: WithinLimit(fills, limit) ==>
      CostOf(fills, decimals) <= MaxCostUnits(SharesOf(fills), limit, decimals)
  }

  /** The signed maximum covers every split of every order exactly when the token has six decimals or more. */
  lemma FundedIffSixDecimals(decimals: nat)
    ensures AlwaysFunded(decimals) <==> decimals >= 6
  {
    if decimals >= 6 {
      forall fills, limit: nat | WithinLimit(fills, limit)
        ensures CostOf(fills, decimals) <= MaxCostUnits(SharesOf(fills), limit, decimals)
      {
        FundedFromSixDecimals(fills, limit, decimals);
      }
    } else {
      OverrunCosts(decimals);
    }
  }

  // ----- the bound the contract demands -----

  /** One hundredth of a dollar, in whole token units. */
  function Cent(decimals: nat): nat { Unit(decimals) / 100 }

  /** What the maximum of an order placed in a batch must reach on the chain: escrow and fee at the limit
      price, and one unit a share for the rounding of the fees. */
  function WorstCaseCost(shares: int, price: int, decimals: nat): int {
    price * shares * Cent(decimals) + TakerFeeUnits(shares, price, decimals) + shares
  }

  lemma CentOfUnit(decimals: nat)
    requires decimals >= 2
    ensures Unit(decimals) == 100 * Cent(decimals) && Cent(decimals) == Unit(decimals - 2)
  {
    UnitSum(2, decimals - 2);
    assert Unit(2) == 100 by {
      assert Unit(1) == 10;
    }
  }

  lemma EscrowInCents(shares: nat, price: nat, decimals: nat)
    requires decimals >= 2
    ensures EscrowUnits(shares, price, decimals) == price * shares * Cent(decimals)
  {
    EscrowExact(shares, price, decimals);
    CentOfUnit(decimals);
    assert shares * price == price * shares;
  }

  /** The cost of one share at a price, before rounding, in units of 10^-8 token units. */
  function ShareCost(price: int, decimals: nat): int {
    (FEE_DENOMINATOR * price + 100 * TAKER_FEE_BPS * (price * (100 - price))) * Cent(decimals)
  }

  /** Escrow and fee of a share together rise with the price, although the fee alone falls above 50. */
  lemma ShareCostMonotone(q: nat, p: nat, decimals: nat)
    requires q <= p <= 99
    ensures 0 <= ShareCost(q, decimals) <= ShareCost(p, decimals)
  {
    Parabola(p, q);
    MulMonotone(-98, 100 - p - q, p - q);
    WorstPrice(q, 100);
    var a := FEE_DENOMINATOR * q + 100 * TAKER_FEE_BPS * (q * (100 - q));
    var b := FEE_DENOMINATOR * p + 100 * TAKER_FEE_BPS * (p * (100 - p));
    assert b - a == FEE_DENOMINATOR * (p - q) + 70_000 * ((100 - p - q) * (p - q));
    MulMonotone(0, a, Cent(decimals));
    MulMonotone(a, b, Cent(decimals));
  }

  /** Escrow and rounded-up fee of one fill against its unrounded cost. */
  lemma FillCost(shares: nat, price: nat, decimals: nat)
    requires price <= 99 && decimals >= 2
    ensures var cost := price * shares * Cent(decimals) + TakerFeeUnits(shares, price, decimals);
      shares * ShareCost(price, decimals) <= cost * FEE_DENOMINATOR < shares * ShareCost(price, decimals) + FEE_DENOMINATOR
  {
    var g, cent, n := price * (100 - price), Cent(decimals), FeeNumerator(shares, price, decimals);
    CentOfUnit(decimals);
    NumeratorAs(shares, price, decimals);
    WorstPrice(price, 100);
    MulNonnegative(shares, g, TAKER_FEE_BPS * Unit(decimals));
    SplitShareCost(shares, price, g, cent);
  }

  lemma SplitShareCost(shares: int, price: int, g: int, cent: int)
    ensures shares * ((FEE_DENOMINATOR * price + 100 * TAKER_FEE_BPS * g) * cent)
         == (price * shares * cent) * FEE_DENOMINATOR + (shares * g) * (TAKER_FEE_BPS * (100 * cent))
  {
    var a, b := FEE_DENOMINATOR * price, 100 * TAKER_FEE_BPS * g;
    assert (a + b) * cent == a * cent + b * cent;
    assert shares * (a * cent + b * cent) == shares * (a * cent) + shares * (b * cent);
    assert shares * (a * cent) == (price * shares * cent) * FEE_DENOMINATOR;
    assert shares * (b * cent) == (shares * g) * (TAKER_FEE_BPS * (100 * cent));
  }

  predicate NoEmptyFill(fills: seq<Fill>) {
    forall i :: 0 <= i < |fills| ==> fills[i].shares >= 1
  }

  lemma RoundedWithin(cost: int, shares: int, unitCost: int, topCost: int, k: int)
    requires cost * k < shares * unitCost + k
    requires shares >= 1 && unitCost <= topCost && k > 0
    ensures cost * k <= shares * (topCost + k)
  {
    MulMonotone(unitCost, topCost, shares);
    MulMonotone(1, shares, k);
  }

  /** A fill of at least one share costs at most the limit's share cost and one unit a share. */
  lemma FillWithin(f: Fill, limit: nat, decimals: nat)
    requires f.shares >= 1 && f.price <= limit <= 99 && decimals >= 2
    ensures (EscrowUnits(f.shares, f.price, decimals) + TakerFeeUnits(f.shares, f.price, decimals)) * FEE_DENOMINATOR
         <= f.shares * (ShareCost(limit, decimals) + FEE_DENOMINATOR)
  {
    EscrowInCents(f.shares, f.price, decimals);
    FillCost(f.shares, f.price, decimals);
    ShareCostMonotone(f.price, limit, decimals);
    RoundedWithin(EscrowUnits(f.shares, f.price, decimals) + TakerFeeUnits(f.shares, f.price, decimals),
                  f.shares, ShareCost(f.price, decimals), ShareCost(limit, decimals), FEE_DENOMINATOR);
  }

  lemma AddBounds(x: int, y: int, k: int, a: int, b: int, top: int)
    requires x * k <= a * top && y * k <= b * top
    ensures (x + y) * k <= (a + b) * top
  {
  }

  lemma {:induction false} FillsWithinShareCost(fills: seq<Fill>, limit: nat, decimals: nat)
    requires WithinLimit(fills, limit) && NoEmptyFill(fills) && decimals >= 2
    ensures CostOf(fills, decimals) * FEE_DENOMINATOR
         <= SharesOf(fills) * (ShareCost(limit, decimals) + FEE_DENOMINATOR)
  {
    if fills != [] {
      var init, f := fills[..|fills| - 1], fills[|fills| - 1];
      FillsWithinShareCost(init, limit, decimals);
      FillWithin(f, limit, decimals);
      AddBounds(CostOf(init, decimals),
                EscrowUnits(f.shares, f.price, decimals) + TakerFeeUnits(f.shares, f.price, decimals),
                FEE_DENOMINATOR, SharesOf(init), f.shares, ShareCost(limit, decimals) + FEE_DENOMINATOR);
    }
  }

  lemma WithinBound(cost: int, bound: int, shares: int, unitCost: int, k: int)
    requires cost * k <= shares * (unitCost + k) && shares * unitCost <= bound * k && k > 0
    ensures cost <= bound + shares
  {
    CancelMul(cost, bound + shares + 1, k);
  }

  /** The contract's bound is sound: however an order is executed, with fills of at least one share at the
      limit or better and the escrow of the unfilled rest at the limit, it costs no more. */
  lemma WorstCaseCovers(fills: seq<Fill>, rest: nat, limit: nat, decimals: nat)
    requires WithinLimit(fills, limit) && NoEmptyFill(fills) && decimals >= 2
    ensures CostOf(fills, decimals) + EscrowUnits(rest, limit, decimals)
         <= WorstCaseCost(SharesOf(fills) + rest, limit, decimals)
  {
    var s, w := SharesOf(fills) + rest, ShareCost(limit, decimals);
    FillsWithinShareCost(fills, limit, decimals);
    RestWithin(rest, limit, decimals);
    AddBounds(CostOf(fills, decimals), EscrowUnits(rest, limit, decimals), FEE_DENOMINATOR,
              SharesOf(fills), rest, w + FEE_DENOMINATOR);
    FillCost(s, limit, decimals);
    WithinBound(CostOf(fills, decimals) + EscrowUnits(rest, limit, decimals),
                limit * s * Cent(decimals) + TakerFeeUnits(s, limit, decimals), s, w, FEE_DENOMINATOR);
  }

  lemma RestWithin(rest: nat, limit: nat, decimals: nat)
    requires limit <= 99 && decimals >= 2
    ensures EscrowUnits(rest, limit, decimals) * FEE_DENOMINATOR
         <= rest * (ShareCost(limit, decimals) + FEE_DENOMINATOR)
  {
    if rest == 0 {
      EscrowInCents(0, limit, decimals);
    } else {
      FillWithin(Fill(rest, limit), limit, decimals);
      FeeNonnegative(rest, limit, decimals);
      MulMonotone(EscrowUnits(rest, limit, decimals),
                  EscrowUnits(rest, limit, decimals) + TakerFeeUnits(rest, limit, decimals), FEE_DENOMINATOR);
    }
  }

  lemma FeeNonnegative(shares: nat, price: nat, decimals: nat)
    requires price <= 100
    ensures TakerFeeUnits(shares, price, decimals) >= 0
  {
    NumeratorAs(shares, price, decimals);
    WorstPrice(price, 100);
    MulNonnegative(shares, price * (100 - price), TAKER_FEE_BPS * Unit(decimals));
  }

  /** The web client's maximum: escrow and fee at the limit price. */
  function WebMaxCostUnits(shares: int, price: int, decimals: nat): int {
    EscrowUnits(shares, price, decimals) + TakerFeeUnits(shares, price, decimals)
  }

  /** It is always one unit a share short of what the contract demands of an order in a batch. */
  lemma WebShortOfBound(shares: nat, price: nat, decimals: nat)
    requires decimals >= 2
    ensures WebMaxCostUnits(shares, price, decimals) + shares == WorstCaseCost(shares, price, decimals)
  {
    EscrowInCents(shares, price, decimals);
  }

  lemma CeilGap(a: int, b: int, gap: nat)
    requires 0 <= b && b + gap * FEE_DENOMINATOR <= a
    ensures CeilDiv(b, FEE_DENOMINATOR) + gap <= CeilDiv(a, FEE_DENOMINATOR)
  {
    CancelMul(CeilDiv(b, FEE_DENOMINATOR) - 1 + gap, CeilDiv(a, FEE_DENOMINATOR), FEE_DENOMINATOR);
  }

  /** Above 50 cents, the fee at 50 leaves a unit a share of room over the fee at the limit. */
  lemma FeeRoomAboveHalf(shares: nat, price: nat, decimals: nat)
    requires 51 <= price <= 99 && decimals >= 6
    ensures TakerFeeUnits(shares, price, decimals) + shares <= TakerFeeUnits(shares, 50, decimals)
  {
    UnitFromSix(decimals);
    BelowPeak(price);
    NumeratorAs(shares, price, decimals);
    NumeratorAs(shares, 50, decimals);
    RoomForShares(shares, price * (100 - price), 2500, TAKER_FEE_BPS * Unit(decimals));
    CeilGap(FeeNumerator(shares, 50, decimals), FeeNumerator(shares, price, decimals), shares);
  }

  lemma BelowPeak(price: nat)
    requires 51 <= price <= 99
    ensures 0 <= price * (100 - price) < 2500
  {
    MulNonnegative(price, 100 - price, 1);
  }

  lemma RoomForShares(shares: nat, g: nat, top: nat, c: nat)
    requires g < top && c >= FEE_DENOMINATOR
    ensures 0 <= (shares * g) * c
    ensures (shares * g) * c + shares * FEE_DENOMINATOR <= (shares * top) * c
  {
    MulNonnegative(shares, g, c);
    MulMonotone(g + 1, top, shares);
    MulMonotone(shares * g + shares, shares * top, c);
    MulMonotone(FEE_DENOMINATOR, c, shares);
  }

  /** From six decimals on, the mobile client's maximum reaches the contract's bound exactly for orders
      above 50 cents: in a batch, every order at 50 cents or below is rejected. */
  lemma MeetsBoundIffAboveHalf(shares: nat, price: nat, decimals: nat)
    requires shares >= 1 && 1 <= price <= 99 && decimals >= 6
    ensures MaxCostUnits(shares, price, decimals) >= WorstCaseCost(shares, price, decimals) <==> price >= 51
  {
    EscrowInCents(shares, price, decimals);
    if price >= 51 {
      FeeRoomAboveHalf(shares, price, decimals);
    }
  }

  ghost predicate AlwaysMeetsBoundAboveHalf(decimals: nat) {
    forall shares: nat, price: nat :: 51 <= price <= 99 ==>
      MaxCostUnits(shares, price, decimals) >= WorstCaseCost(shares, price, decimals)
  }

  /** With fewer decimals, not even all orders above 50 cents reach it. */
  lemma MeetsBoundIffSixDecimals(decimals: nat)
    requires decimals >= 2
    ensures AlwaysMeetsBoundAboveHalf(decimals) <==> decimals >= 6
  {
    if decimals >= 6 {
      forall shares: nat, price: nat | 51 <= price <= 99
        ensures MaxCostUnits(shares, price, decimals) >= WorstCaseCost(shares, price, decimals)
      {
        EscrowInCents(shares, price, decimals);
        FeeRoomAboveHalf(shares, price, decimals);
      }
    } else {
      EscrowInCents(1000, 51, decimals);
      UnitValue(decimals);
      assert TakerFeeUnits(1000, 50, decimals) < TakerFeeUnits(1000, 51, decimals) + 1000;
      assert MaxCostUnits(1000, 51, decimals) < WorstCaseCost(1000, 51, decimals);
    }
  }

  /** The order that opens a market is held to its escrow alone, which both clients' maxima reach. */
  lemma OpeningOrderCovered(shares: nat, price: nat, decimals: nat)
    requires 1 <= price <= 99 && decimals >= 2
    ensures MaxCostUnits(shares, price, decimals) >= price * shares * Cent(decimals)
    ensures WebMaxCostUnits(shares, price, decimals) >= price * shares * Cent(decimals)
  {
    EscrowInCents(shares, price, decimals);
    FeeNonnegative(shares, price, decimals);
    FeeNonnegative(shares, WorstFeePrice(price), decimals);
  }
}
