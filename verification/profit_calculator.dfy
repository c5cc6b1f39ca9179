/**
 * The arbitrage profit calculator page: four closed-form evaluators (direct,
 * triangular, futures, peer-to-peer) that turn a form's numbers into a
 * result card, the dispatcher that picks one by the selected tab, and the
 * minutes-to-duration display rule. Amounts and percentages are reals; days
 * and minutes are integers. The page validates nothing, so every division
 * the source performs appears as a `requires` that its divisor is non-zero.
 */
module ProfitCalculator {
  import opened Wrappers

  datatype Risk = Low | Medium | High

  /** The result card: `profit` is the gross profit before fees, `fee` the sum of all costs. */
  datatype Calculation = Calculation(
    profit: real,
    profitPercentage: real,
    fee: real,
    netProfit: real,
    timeRequired: int,
    risk: Risk)

  datatype DirectInputs = DirectInputs(
    buyPrice: real,
    sellPrice: real,
    amount: real,
    buyExchangeFee: real,
    sellExchangeFee: real,
    includeNetworkFees: bool,
    networkFee: real)

  datatype TriangularInputs = TriangularInputs(
    startAmount: real,
    firstPairRate: real,
    secondPairRate: real,
    thirdPairRate: real,
    exchangeFee: real,
    includeSlippage: bool,
    slippage: real)

  datatype FuturesInputs = FuturesInputs(
    spotPrice: real,
    futuresPrice: real,
    amount: real,
    daysToExpiration: int,
    fundingRate: real,
    spotExchangeFee: real,
    futuresExchangeFee: real)

  datatype P2PInputs = P2PInputs(
    buyPrice: real,
    sellPrice: real,
    amount: real,
    paymentFee: real,
    withdrawalFee: real,
    timeToComplete: int)

  /** The four input forms the page keeps side by side, one per tab. */
  datatype Forms = Forms(
    direct: DirectInputs,
    triangular: TriangularInputs,
    futures: FuturesInputs,
    p2p: P2PInputs)

  // Fixed time estimates and calendar constants.
  const DirectMinutes: int := 5
  const TriangularMinutes: int := 1
  const MinutesPerHour: int := 60
  const MinutesPerDay: int := 1440
  const DaysPerYear: real := 365.0

  // Risk thresholds: a metric strictly above the first bound is Low risk,
  // strictly above the second is Medium, anything else is High.
  const DirectLowAbove: real := 2.0
  const DirectMediumAbove: real := 0.5
  const TriangularLowAbove: real := 1.5
  const TriangularMediumAbove: real := 0.3
  const FuturesLowAbove: real := 15.0
  const FuturesMediumAbove: real := 5.0
  const P2PLowAbove: real := 3.0
  const P2PMediumAbove: real := 1.0

  /** The three-way risk split shared by all evaluators; both bounds are exclusive. */
  function Tier(metric: real, lowAbove: real, mediumAbove: real): (r: Risk)
    requires mediumAbove <= lowAbove
    ensures r == Low <==> lowAbove < metric
    ensures r == Medium <==> mediumAbove < metric <= lowAbove
    ensures r == High <==> metric <= mediumAbove
  {
    if metric > lowAbove then Low else if metric > mediumAbove then Medium else High
  }

  /** `part` as a percentage of `base`, in the source's order of operations. */
  function Percent(part: real, base: real): (r: real)
    requires base != 0.0
    ensures r * base == part * 100.0
  {
    (part / base) * 100.0
  }

  // ---------------------------------------------------------------- direct

  predicate DirectDefined(i: DirectInputs) {
    i.buyPrice * i.amount != 0.0
  }

  /** Buy on one exchange, sell on another; the network fee is a flat switchable extra. */
  function Direct(i: DirectInputs): (c: Calculation)
    requires DirectDefined(i)
    ensures c.profit == i.sellPrice * i.amount - i.buyPrice * i.amount
    ensures c.fee
         == i.buyPrice * i.amount * i.buyExchangeFee / 100.0
          + i.sellPrice * i.amount * i.sellExchangeFee / 100.0
          + (if i.includeNetworkFees then i.networkFee else 0.0)
    ensures c.netProfit == c.profit - c.fee
    ensures c.profitPercentage * (i.buyPrice * i.amount) == c.netProfit * 100.0
    ensures c.timeRequired == DirectMinutes
    ensures c.risk == Tier(c.profitPercentage, DirectLowAbove, DirectMediumAbove)
  {
    var rawProfit := (i.sellPrice - i.buyPrice) * i.amount;
    var buyFee := (i.buyPrice * i.amount * i.buyExchangeFee) / 100.0;
    var sellFee := (i.sellPrice * i.amount * i.sellExchangeFee) / 100.0;
    var totalFee := buyFee + sellFee + (if i.includeNetworkFees then i.networkFee else 0.0);
    var netProfit := rawProfit - totalFee;
    var pct := Percent(netProfit, i.buyPrice * i.amount);
    Calculation(rawProfit, pct, totalFee, netProfit, DirectMinutes,
                Tier(pct, DirectLowAbove, DirectMediumAbove))
  }

  /** With network fees switched off, the network fee field has no effect on any output. */
  lemma DirectIgnoresNetworkFeeWhenExcluded(i: DirectInputs, otherFee: real)
    requires DirectDefined(i) && !i.includeNetworkFees
    ensures Direct(i.(networkFee := otherFee)) == Direct(i)
  {
    var j := i.(networkFee := otherFee);
    assert Direct(j).fee == Direct(i).fee;
    assert Direct(j).netProfit == Direct(i).netProfit;
    assert Direct(j).profitPercentage == Percent(Direct(i).netProfit, i.buyPrice * i.amount);
  }

  /** Non-negative prices, amount and fees give a non-negative fee total, so net never exceeds gross. */
  lemma DirectFeesNonNegative(i: DirectInputs)
    requires DirectDefined(i)
    requires i.buyPrice >= 0.0 && i.sellPrice >= 0.0 && i.amount >= 0.0
    requires i.buyExchangeFee >= 0.0 && i.sellExchangeFee >= 0.0 && i.networkFee >= 0.0
    ensures Direct(i).fee >= 0.0
    ensures Direct(i).netProfit <= Direct(i).profit
  {
    NonNegativeProduct3(i.buyPrice, i.amount, i.buyExchangeFee);
    NonNegativeProduct3(i.sellPrice, i.amount, i.sellExchangeFee);
  }

  lemma NonNegativeProduct3(x: real, y: real, z: real)
    requires x >= 0.0 && y >= 0.0 && z >= 0.0
    ensures x * y * z >= 0.0
  {
    assert x * y >= 0.0;
  }

  /**
   * Raising the sell price, everything else fixed, strictly raises gross and
   * net profit as long as something is traded and the sell fee is below 100%.
   */
  lemma DirectMonotoneInSellPrice(i: DirectInputs, higher: real)
    requires DirectDefined(i) && i.amount > 0.0 && i.sellExchangeFee < 100.0
    requires higher > i.sellPrice
    ensures Direct(i.(sellPrice := higher)).profit > Direct(i).profit
    ensures Direct(i.(sellPrice := higher)).netProfit > Direct(i).netProfit
  {
    var j := i.(sellPrice := higher);
    var buy, p, q := i.buyPrice * i.amount, higher * i.amount, i.sellPrice * i.amount;
    var rest := buy * i.buyExchangeFee / 100.0 + (if i.includeNetworkFees then i.networkFee else 0.0);
    ScaleKeepsOrder(higher, i.sellPrice, i.amount);
    FeeEatsLessThanGain(p, q, i.sellExchangeFee);
    assert Direct(j).netProfit == (p - buy) - (rest + p * i.sellExchangeFee / 100.0);
    assert Direct(i).netProfit == (q - buy) - (rest + q * i.sellExchangeFee / 100.0);
  }

  lemma ScaleKeepsOrder(x: real, y: real, a: real)
    requires x > y && a > 0.0
    ensures x * a > y * a
  {
    PositiveProduct(x - y, a);
    assert (x - y) * a == x * a - y * a;
  }

  /** Growing a value from q to p under a fee below 100% leaves a positive gain after the fee. */
  lemma FeeEatsLessThanGain(p: real, q: real, f: real)
    requires p > q && f < 100.0
    ensures (p - q) - (p * f / 100.0 - q * f / 100.0) > 0.0
  {
    var d, k := p - q, (p - q) * f;
    PositiveProduct(d, 100.0 - f);
    assert d * (100.0 - f) == d * 100.0 - k;
    assert p * f - q * f == k;
  }

  lemma PositiveProduct(x: real, y: real)
    requires x > 0.0 && y > 0.0
    ensures x * y > 0.0
  {
  }

  /** The tier bounds are exclusive: exactly 2% is Medium and exactly 0.5% is High. */
  lemma DirectTierBoundaries(i: DirectInputs)
    requires DirectDefined(i)
    ensures Direct(i).profitPercentage == 2.0 ==> Direct(i).risk == Medium
    ensures Direct(i).profitPercentage == 0.5 ==> Direct(i).risk == High
    ensures Direct(i).risk == Low <==> Direct(i).profitPercentage > 2.0
  {
  }

  /** The default direct form: 200 gross, 68.2 fees, 131.8 net, just under 0.5%, so High risk. */
  lemma DirectDefaultForm()
    ensures var c := Direct(DirectInputs(26500.0, 26700.0, 1.0, 0.1, 0.1, true, 15.0));
      && c.profit == 200.0 && c.fee == 68.2 && c.netProfit == 131.8
      && c.profitPercentage * 26500.0 == 13180.0 && c.risk == High
  {
  }

  // ------------------------------------------------------------ triangular

  predicate TriangularDefined(i: TriangularInputs) {
    i.thirdPairRate != 0.0 && i.startAmount != 0.0
  }

  /**
   * Three conversions around a currency loop. Each leg's fee is charged on
   * that leg's notional as the source computes it: start·r1 for the first
   * leg and start·r1·r2 for both the second and the third, so the last two
   * fees are equal and the third ignores the final division by r3. The
   * slippage term is a share of the gross profit and is negative when the
   * loop loses money.
   */
  function Triangular(i: TriangularInputs): (c: Calculation)
    requires TriangularDefined(i)
    ensures c.profit * i.thirdPairRate
         == i.startAmount * i.firstPairRate * i.secondPairRate - i.startAmount * i.thirdPairRate
    ensures c.fee
         == i.startAmount * i.firstPairRate * i.exchangeFee / 100.0
          + 2.0 * (i.startAmount * i.firstPairRate * i.secondPairRate * i.exchangeFee / 100.0)
          + (if i.includeSlippage then c.profit * i.slippage / 100.0 else 0.0)
    ensures c.netProfit == c.profit - c.fee
    ensures c.profitPercentage * i.startAmount == c.netProfit * 100.0
    ensures c.timeRequired == TriangularMinutes
    ensures c.risk == Tier(c.profitPercentage, TriangularLowAbove, TriangularMediumAbove)
  {
    var secondAmount := i.startAmount * i.firstPairRate;
    var thirdAmount := secondAmount * i.secondPairRate;
    var finalAmount := thirdAmount / i.thirdPairRate;
    var rawProfit := finalAmount - i.startAmount;
    var firstTradeFee := (i.startAmount * i.firstPairRate * i.exchangeFee) / 100.0;
    var secondTradeFee := (secondAmount * i.secondPairRate * i.exchangeFee) / 100.0;
    var thirdTradeFee := (thirdAmount * i.exchangeFee) / 100.0;
    var slippageAmount := if i.includeSlippage then (rawProfit * i.slippage) / 100.0 else 0.0;
    var totalFee := firstTradeFee + secondTradeFee + thirdTradeFee + slippageAmount;
    var netProfit := rawProfit - totalFee;
    var pct := Percent(netProfit, i.startAmount);
    Calculation(rawProfit, pct, totalFee, netProfit, TriangularMinutes,
                Tier(pct, TriangularLowAbove, TriangularMediumAbove))
  }

  /**
   * With slippage switched on and no exchange fee, a losing loop reports a
   * negative total fee: the fee total is not always non-negative.
   */
  lemma TriangularFeeNegativeOnLoss(i: TriangularInputs)
    requires TriangularDefined(i)
    requires i.includeSlippage && i.slippage > 0.0 && i.exchangeFee == 0.0
    requires Triangular(i).profit < 0.0
    ensures Triangular(i).fee < 0.0
  {
    var c := Triangular(i);
    assert c.fee == c.profit * i.slippage / 100.0;
    assert c.profit * i.slippage < 0.0;
  }

  /** A concrete losing loop: 1000 → 1000 → 1000 → 500 with 0.5% slippage gives a fee of −2.5. */
  lemma TriangularLosingLoop()
    ensures var c := Triangular(TriangularInputs(1000.0, 1.0, 1.0, 2.0, 0.0, true, 0.5));
      c.profit == -500.0 && c.fee == -2.5 && c.netProfit == -497.5 && c.risk == High
  {
  }

  // --------------------------------------------------------------- futures

  predicate FuturesDefined(i: FuturesInputs) {
    i.spotPrice * i.amount != 0.0 && i.daysToExpiration != 0
  }

  /** Annualised return: the percentage scaled from the holding period to a year. */
  function Annualised(pct: real, days: int): (r: real)
    requires days != 0
    ensures r * (days as real) == pct * DaysPerYear
  {
    (pct * DaysPerYear) / (days as real)
  }

  /**
   * Cash-and-carry between spot and futures: fees on both legs plus a daily
   * funding cost on the spot notional. The risk tier is decided by the
   * annualised return, not by the percentage shown.
   */
  function Futures(i: FuturesInputs): (c: Calculation)
    requires FuturesDefined(i)
    ensures c.profit == i.futuresPrice * i.amount - i.spotPrice * i.amount
    ensures c.fee
         == i.spotPrice * i.amount * i.spotExchangeFee / 100.0
          + i.futuresPrice * i.amount * i.futuresExchangeFee / 100.0
          + i.spotPrice * i.amount * i.fundingRate * (i.daysToExpiration as real) / 100.0
    ensures c.netProfit == c.profit - c.fee
    ensures c.profitPercentage * (i.spotPrice * i.amount) == c.netProfit * 100.0
    ensures c.timeRequired == i.daysToExpiration * MinutesPerDay
    ensures c.risk == Tier(Annualised(c.profitPercentage, i.daysToExpiration),
                           FuturesLowAbove, FuturesMediumAbove)
  {
    var rawProfit := (i.futuresPrice - i.spotPrice) * i.amount;
    var spotFee := (i.spotPrice * i.amount * i.spotExchangeFee) / 100.0;
    var futuresFee := (i.futuresPrice * i.amount * i.futuresExchangeFee) / 100.0;
    var fundingCost := (i.spotPrice * i.amount * i.fundingRate * (i.daysToExpiration as real)) / 100.0;
    var totalFee := spotFee + futuresFee + fundingCost;
    var netProfit := rawProfit - totalFee;
    var pct := Percent(netProfit, i.spotPrice * i.amount);
    var annualizedReturn := Annualised(pct, i.daysToExpiration);
    Calculation(rawProfit, pct, totalFee, netProfit, i.daysToExpiration * MinutesPerDay,
                Tier(annualizedReturn, FuturesLowAbove, FuturesMediumAbove))
  }

  /**
   * The same percentage earns different tiers at different horizons: a
   * 1.2% return is Low risk over 10 days (43.8% a year) but High risk over
   * 365 days.
   */
  lemma FuturesTierFollowsHorizon(i: FuturesInputs)
    requires FuturesDefined(i)
    ensures Futures(i).profitPercentage == 1.2 && i.daysToExpiration == 10 ==> Futures(i).risk == Low
    ensures Futures(i).profitPercentage == 1.2 && i.daysToExpiration == 365 ==> Futures(i).risk == High
  {
  }

  /** The default futures form: 400 gross, 119.45 costs, 280.55 net, about 12.9% a year, so Medium. */
  lemma FuturesDefaultForm()
    ensures var c := Futures(FuturesInputs(26500.0, 26900.0, 1.0, 30, 0.01, 0.1, 0.05));
      && c.profit == 400.0 && c.fee == 119.45 && c.netProfit == 280.55
      && c.timeRequired == 43200 && c.risk == Medium
  {
  }

  // ------------------------------------------------------------------- p2p

  predicate P2PDefined(i: P2PInputs) {
    i.amount * i.buyPrice != 0.0
  }

  /** Buy and resell on peer-to-peer markets; the completion time is the user's own estimate. */
  function P2P(i: P2PInputs): (c: Calculation)
    requires P2PDefined(i)
    ensures c.profit == i.amount * i.sellPrice - i.amount * i.buyPrice
    ensures c.fee == i.amount * i.buyPrice * i.paymentFee / 100.0 + i.withdrawalFee
    ensures c.netProfit == c.profit - c.fee
    ensures c.profitPercentage * (i.amount * i.buyPrice) == c.netProfit * 100.0
    ensures c.timeRequired == i.timeToComplete
    ensures c.risk == Tier(c.profitPercentage, P2PLowAbove, P2PMediumAbove)
  {
    var buyTotal := i.amount * i.buyPrice;
    var sellTotal := i.amount * i.sellPrice;
    var rawProfit := sellTotal - buyTotal;
    var paymentProcessingFee := (buyTotal * i.paymentFee) / 100.0;
    var totalFee := paymentProcessingFee + i.withdrawalFee;
    var netProfit := rawProfit - totalFee;
    var pct := Percent(netProfit, buyTotal);
    Calculation(rawProfit, pct, totalFee, netProfit, i.timeToComplete,
                Tier(pct, P2PLowAbove, P2PMediumAbove))
  }

  /** The default P2P form: 40 gross, 19.7 fees, 20.3 net, about 2.07%, so Medium. */
  lemma P2PDefaultForm()
    ensures var c := P2P(P2PInputs(0.98, 1.02, 1000.0, 1.5, 5.0, 30));
      && c.profit == 40.0 && c.fee == 19.7 && c.netProfit == 20.3
      && c.timeRequired == 30 && c.risk == Medium
  {
  }

  // -------------------------------------------------------------- dispatch

  const KnownTags: set<string> := {"direct", "triangular", "futures", "p2p"}

  /** The selected tab's evaluator can run without dividing by zero. */
  predicate Computable(tag: string, f: Forms) {
    && (tag == "direct" ==> DirectDefined(f.direct))
    && (tag == "triangular" ==> TriangularDefined(f.triangular))
    && (tag == "futures" ==> FuturesDefined(f.futures))
    && (tag == "p2p" ==> P2PDefined(f.p2p))
  }

  /**
   * The Calculate button: runs the evaluator of the selected tab on that
   * tab's form and shows its result; any other tag leaves the card as it was.
   */
  function HandleCalculate(tag: string, f: Forms, shown: Option<Calculation>): (r: Option<Calculation>)
    requires Computable(tag, f)
    ensures tag in KnownTags ==> r.Some?
    ensures tag == "direct" ==> r == Some(Direct(f.direct))
    ensures tag == "triangular" ==> r == Some(Triangular(f.triangular))
    ensures tag == "futures" ==> r == Some(Futures(f.futures))
    ensures tag == "p2p" ==> r == Some(P2P(f.p2p))
    ensures tag !in KnownTags ==> r == shown
  {
    match tag
    case "direct" => Some(Direct(f.direct))
    case "triangular" => Some(Triangular(f.triangular))
    case "futures" => Some(Futures(f.futures))
    case "p2p" => Some(P2P(f.p2p))
    case _ => shown
  }

  /** Whatever the tab, a shown result keeps the accounting identity net = gross − fees. */
  lemma CalculationBalances(tag: string, f: Forms, shown: Option<Calculation>)
    requires Computable(tag, f)
    requires shown.Some? ==> shown.value.netProfit == shown.value.profit - shown.value.fee
    ensures var r := HandleCalculate(tag, f, shown);
      r.Some? ==> r.value.netProfit == r.value.profit - r.value.fee
  {
  }

  // -------------------------------------------------------------- duration

  /** How the card shows a time in minutes: in days, in hours, or as whole minutes. */
  datatype Duration = Days(days: real) | Hours(hours: real) | Minutes(minutes: int)

  function InMinutes(d: Duration): real {
    match d
    case Days(n) => n * (MinutesPerDay as real)
    case Hours(n) => n * (MinutesPerHour as real)
    case Minutes(n) => n as real
  }

  /**
   * Days from 1440 minutes up, hours from 60 up, minutes below that; the
   * shown amount converted back to minutes is exactly the input.
   */
  function FormatDuration(t: int): (d: Duration)
    ensures d.Days? <==> t >= MinutesPerDay
    ensures d.Hours? <==> MinutesPerHour <= t < MinutesPerDay
    ensures d.Minutes? <==> t < MinutesPerHour
    ensures InMinutes(d) == t as real
  {
    if t >= MinutesPerDay then Days((t as real) / (MinutesPerDay as real))
    else if t >= MinutesPerHour then Hours((t as real) / (MinutesPerHour as real))
    else Minutes(t)
  }
}
