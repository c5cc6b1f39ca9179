/**
 * The trading-bot page: the list of saved bot configurations (upsert by id,
 * delete by id, load), the execute button's guard and statistics update,
 * and the add/remove pickers for trading pairs and exchanges. Timestamps
 * are integer milliseconds passed in as `now`; the random profit increments
 * and the freshly generated ids are parameters too.
 */
module BotTrading {
  import opened Wrappers
  import opened Sequences

  /** The four strategies a bot can be created for. */
  datatype BotType = Direct | Triangular | Futures | P2P

  datatype BotConfig = BotConfig(
    id: string,
    name: string,
    kind: BotType,
    enabled: bool,
    autoTrade: bool,
    autoSelectNetwork: bool,
    maxSlippage: real,
    minProfitPercentage: real,
    maxTradeAmount: real,
    stopLossPercentage: real,
    takeProfitPercentage: real,
    tradingPairs: seq<string>,
    exchanges: seq<string>,
    createdAt: int,
    lastModified: int,
    lastRun: Option<int>,
    totalProfit: real,
    totalTrades: nat,
    successRate: real)

  /** The page state the modelled handlers read and write. */
  datatype Page = Page(
    saved: seq<BotConfig>,
    current: BotConfig,
    activeType: BotType,
    needsApiKey: bool,
    autoExecuteTrades: bool)

  const TradingPairs: seq<string> := [
    "BTC/USDT", "ETH/USDT", "SOL/USDT", "ADA/USDT", "DOT/USDT",
    "LINK/USDT", "AVAX/USDT", "DOGE/USDT", "MATIC/USDT", "UNI/USDT"]

  const Exchanges: seq<string> := [
    "Binance", "Coinbase", "Kraken", "FTX", "Huobi",
    "KuCoin", "Bybit", "OKX", "Gate.io", "Bitfinex"]

  // ------------------------------------------------------------- defaults

  function DefaultName(t: BotType): string {
    match t
    case Direct => "Direct Arbitrage Bot"
    case Triangular => "Triangular Arbitrage Bot"
    case Futures => "Futures Arbitrage Bot"
    case P2P => "P2P Arbitrage Bot"
  }

  /** maxSlippage, minProfitPercentage, maxTradeAmount, stopLossPercentage, takeProfitPercentage. */
  function DefaultLimits(t: BotType): (real, real, real, real, real) {
    match t
    case Direct => (0.1, 0.5, 1000.0, 2.0, 2.5)
    case Triangular => (0.2, 0.8, 1500.0, 2.5, 3.0)
    case Futures => (0.15, 0.7, 2000.0, 3.0, 3.5)
    case P2P => (0.25, 1.2, 1200.0, 3.5, 4.0)
  }

  /** A fresh, disabled bot of type `t` with the type's defaults and empty statistics. */
  function DefaultBot(t: BotType, id: string, now: int): (b: BotConfig)
    ensures b.id == id && b.kind == t && !b.enabled && !b.autoTrade
    ensures b.tradingPairs == ["BTC/USDT"] && b.exchanges == ["Binance", "Coinbase"]
    ensures b.totalTrades == 0 && b.totalProfit == 0.0 && b.successRate == 0.0 && b.lastRun.None?
  {
    var (slip, minProfit, maxAmount, stopLoss, takeProfit) := DefaultLimits(t);
    BotConfig(id, DefaultName(t), t, false, false, true, slip, minProfit, maxAmount, stopLoss,
              takeProfit, ["BTC/USDT"], ["Binance", "Coinbase"], now, now, None, 0.0, 0, 0.0)
  }

  // ------------------------------------------------------------ id lookup

  predicate HasId(bots: seq<BotConfig>, id: string) {
    exists j :: 0 <= j < |bots| && bots[j].id == id
  }

  /** No two saved bots share an id. */
  predicate UniqueIds(bots: seq<BotConfig>) {
    forall i, j :: 0 <= i < j < |bots| ==> bots[i].id != bots[j].id
  }

  /** Position of the first bot with this id, or -1. */
  function IndexOfId(bots: seq<BotConfig>, id: string): (k: int)
    ensures -1 <= k < |bots|
    ensures k == -1 <==> !HasId(bots, id)
    ensures 0 <= k ==> bots[k].id == id && forall j :: 0 <= j < k ==> bots[j].id != id
  {
    FindFirst((b: BotConfig) => b.id == id, bots)
  }

  /** `bots` with position `k` replaced by `b`. */
  function ReplaceAt(bots: seq<BotConfig>, k: nat, b: BotConfig): (r: seq<BotConfig>)
    requires k < |bots|
    ensures |r| == |bots| && r[k] == b
    ensures forall j :: 0 <= j < |bots| && j != k ==> r[j] == bots[j]
  {
    bots[k := b]
  }

  // ----------------------------------------------------------------- save

  /**
   * Save: a bot whose id is already saved replaces the first such entry in
   * place with a fresh modification time; otherwise it is appended with
   * fresh creation and modification times.
   */
  function SaveBotConfig(saved: seq<BotConfig>, current: BotConfig, now: int): (r: seq<BotConfig>)
    ensures HasId(saved, current.id) ==>
              var k := IndexOfId(saved, current.id);
              && |r| == |saved|
              && r[k] == current.(lastModified := now)
              && forall j :: 0 <= j < |saved| && j != k ==> r[j] == saved[j]
    ensures !HasId(saved, current.id) ==>
              r == saved + [current.(createdAt := now, lastModified := now)]
  {
    var k := IndexOfId(saved, current.id);
    if k >= 0 then ReplaceAt(saved, k, current.(lastModified := now))
    else saved + [current.(createdAt := now, lastModified := now)]
  }

  /** Saving keeps ids unique, and afterwards exactly one entry carries the saved id. */
  lemma SaveKeepsIdsUnique(saved: seq<BotConfig>, current: BotConfig, now: int)
    requires UniqueIds(saved)
    ensures var r := SaveBotConfig(saved, current, now);
      && UniqueIds(r)
      && exists k :: 0 <= k < |r| && r[k].id == current.id
           && forall j :: 0 <= j < |r| && r[j].id == current.id ==> j == k
  {
    var r := SaveBotConfig(saved, current, now);
    var k := IndexOfId(saved, current.id);
    if k >= 0 {
      assert forall j :: 0 <= j < |r| ==> r[j].id == saved[j].id;
      assert r[k].id == current.id;
    } else {
      assert forall j :: 0 <= j < |saved| ==> r[j] == saved[j];
      assert r[|saved|].id == current.id;
    }
  }

  // --------------------------------------------------------------- delete

  /** The saved list without any bot carrying `botId`, in the original order. */
  function RemoveId(saved: seq<BotConfig>, botId: string): (r: seq<BotConfig>)
    ensures forall b :: b in r <==> b in saved && b.id != botId
    ensures IsSubsequence(r, saved)
    ensures |r| <= |saved|
  {
    Filter((b: BotConfig) => b.id != botId, saved)
  }

  /** Deleting an id that is not saved leaves the list as it was. */
  lemma RemoveAbsentIdIsNoOp(saved: seq<BotConfig>, botId: string)
    requires !HasId(saved, botId)
    ensures RemoveId(saved, botId) == saved
  {
    FilterKeepsAll((b: BotConfig) => b.id != botId, saved);
  }

  /**
   * Delete: drops every saved bot with `botId`; when the bot being edited is
   * the one deleted, it is replaced by a fresh default bot of the active
   * type (with the new id `freshId`).
   */
  function DeleteBotConfig(p: Page, botId: string, freshId: string, now: int): (r: Page)
    ensures r.saved == RemoveId(p.saved, botId)
    ensures !HasId(r.saved, botId)
    ensures p.current.id == botId ==> r.current == DefaultBot(p.activeType, freshId, now)
    ensures p.current.id != botId ==> r.current == p.current
    ensures r.activeType == p.activeType && r.needsApiKey == p.needsApiKey
    ensures r.autoExecuteTrades == p.autoExecuteTrades
  {
    var saved := RemoveId(p.saved, botId);
    if p.current.id == botId then p.(saved := saved, current := DefaultBot(p.activeType, freshId, now))
    else p.(saved := saved)
  }

  // ------------------------------------------------------ type change

  /** The type's defaults laid over `b`: name, type, the five limits and network auto-selection. */
  function WithDefaults(b: BotConfig, t: BotType): (r: BotConfig)
    ensures r.name == DefaultName(t) && r.kind == t && r.autoSelectNetwork
    ensures (r.maxSlippage, r.minProfitPercentage, r.maxTradeAmount, r.stopLossPercentage,
             r.takeProfitPercentage) == DefaultLimits(t)
    ensures r.(name := b.name, kind := b.kind, autoSelectNetwork := b.autoSelectNetwork,
               maxSlippage := b.maxSlippage, minProfitPercentage := b.minProfitPercentage,
               maxTradeAmount := b.maxTradeAmount, stopLossPercentage := b.stopLossPercentage,
               takeProfitPercentage := b.takeProfitPercentage) == b
  {
    var (slip, minProfit, maxAmount, stopLoss, takeProfit) := DefaultLimits(t);
    b.(name := DefaultName(t), kind := t, autoSelectNetwork := true, maxSlippage := slip,
       minProfitPercentage := minProfit, maxTradeAmount := maxAmount, stopLossPercentage := stopLoss,
       takeProfitPercentage := takeProfit)
  }

  /**
   * Setting the active type, followed by the effect that runs when it
   * changes: the edited bot takes the new type's defaults, the new id
   * `freshId` (`bot-<type>-<now>` in the page) and a fresh modification
   * time. Setting the type already active changes nothing.
   */
  function SetActiveType(p: Page, t: BotType, freshId: string, now: int): (r: Page)
    ensures r.activeType == t
    ensures t == p.activeType ==> r == p
    ensures t != p.activeType ==>
              && r.current.id == freshId && r.current.lastModified == now
              && r.current.name == DefaultName(t) && r.current.kind == t
              && r.current.tradingPairs == p.current.tradingPairs && r.current.exchanges == p.current.exchanges
              && r.current.totalProfit == p.current.totalProfit && r.current.totalTrades == p.current.totalTrades
    ensures r.(activeType := p.activeType, current := p.current) == p
  {
    if t == p.activeType then p
    else p.(activeType := t, current := WithDefaults(p.current, t).(id := freshId, lastModified := now))
  }

  // ----------------------------------------------------------------- load

  /**
   * Load, as the page does it: the first saved bot with the id becomes the
   * edited bot and its type becomes the active type. When that type is not
   * the active one, the type-change effect then runs over the loaded bot.
   * An unknown id changes nothing.
   */
  function LoadBotConfig(p: Page, botId: string, freshId: string, now: int): (r: Page)
    ensures !HasId(p.saved, botId) ==> r == p
    ensures HasId(p.saved, botId) ==>
              var b := p.saved[IndexOfId(p.saved, botId)];
              && r.saved == p.saved && r.activeType == b.kind
              && (b.kind == p.activeType ==> r.current == b)
              && (b.kind != p.activeType ==> r == SetActiveType(p.(current := b), b.kind, freshId, now))
  {
    match Find((b: BotConfig) => b.id == botId, p.saved)
    case Some(b) => SetActiveType(p.(current := b), b.kind, freshId, now)
    case None => p
  }

  /**
   * Loading a bot of another type than the active one loses it: its name
   * and limits are replaced by the type's defaults, it gets a new id, and
   * saving it afterwards appends a second entry instead of updating it.
   */
  lemma LoadOtherTypeForgetsBot(p: Page, botId: string, freshId: string, now: int, later: int)
    requires HasId(p.saved, botId) && p.saved[IndexOfId(p.saved, botId)].kind != p.activeType
    requires !HasId(p.saved, freshId)
    ensures var b := p.saved[IndexOfId(p.saved, botId)];
            var r := LoadBotConfig(p, botId, freshId, now);
            && r.current.id != botId
            && r.current.name == DefaultName(b.kind)
            && |SaveBotConfig(r.saved, r.current, later)| == |p.saved| + 1
  {
    var r := LoadBotConfig(p, botId, freshId, now);
    assert r.current.id == freshId;
    assert p.saved[IndexOfId(p.saved, botId)].id == botId;
  }

  /** A saved bot named "My bot" of the triangular type, loaded while the direct type is active. */
  lemma LoadOtherTypeExample()
    ensures var b := DefaultBot(Triangular, "bot-1", 0).(name := "My bot", maxTradeAmount := 5000.0);
            var p := Page([b], DefaultBot(Direct, "bot-2", 0), Direct, false, false);
            var r := LoadBotConfig(p, "bot-1", "bot-triangular-9", 9);
            && r.current.name == "Triangular Arbitrage Bot" && r.current.maxTradeAmount == 1500.0
            && r.current.id == "bot-triangular-9"
            && |SaveBotConfig(r.saved, r.current, 10)| == 2
  {
    var b := DefaultBot(Triangular, "bot-1", 0).(name := "My bot", maxTradeAmount := 5000.0);
    var p := Page([b], DefaultBot(Direct, "bot-2", 0), Direct, false, false);
    assert IndexOfId(p.saved, "bot-1") == 0;
    assert !HasId(p.saved, "bot-triangular-9") by {
      assert p.saved[0].id == "bot-1";
    }
    LoadOtherTypeForgetsBot(p, "bot-1", "bot-triangular-9", 9, 10);
  }

  /**
   * Load as evidently intended: the loaded bot is kept as saved whatever its
   * type, and only the active type follows it, without the defaults.
   */
  function LoadBotKeepingConfig(p: Page, botId: string): (r: Page)
    ensures !HasId(p.saved, botId) ==> r == p
    ensures HasId(p.saved, botId) ==>
              var k := IndexOfId(p.saved, botId);
              r == p.(current := p.saved[k], activeType := p.saved[k].kind)
  {
    match Find((b: BotConfig) => b.id == botId, p.saved)
    case Some(b) => p.(current := b, activeType := b.kind)
    case None => p
  }

  /** With the intended load, saving the loaded bot updates its entry in place. */
  lemma LoadThenSaveUpdatesInPlace(p: Page, botId: string, later: int)
    requires HasId(p.saved, botId)
    ensures var r := LoadBotKeepingConfig(p, botId);
            var k := IndexOfId(p.saved, botId);
            var after := SaveBotConfig(r.saved, r.current, later);
            && |after| == |p.saved|
            && after[k] == p.saved[k].(lastModified := later)
  {
    var k := IndexOfId(p.saved, botId);
    var r := LoadBotKeepingConfig(p, botId);
    assert r.current.id == botId;
    assert IndexOfId(r.saved, r.current.id) == k;
  }

  // -------------------------------------------------------------- execute

  /** The simulated profit of one run, `Math.random() * 10 + 5`. */
  predicate ProfitDraw(x: real) {
    5.0 <= x < 15.0
  }

  /** The running success rate after one more (always successful) run. */
  function NextSuccessRate(rate: real, trades: nat): (r: real)
    ensures r * ((trades + 1) as real) == rate * (trades as real) + 100.0
  {
    (rate * (trades as real) + 100.0) / ((trades + 1) as real)
  }

  /** A rate in [0, 100] stays in [0, 100], and never falls, after another successful run. */
  lemma SuccessRateStaysPercentage(rate: real, trades: nat)
    requires 0.0 <= rate <= 100.0
    ensures rate <= NextSuccessRate(rate, trades) <= 100.0
  {
    var n := trades as real;
    var r := NextSuccessRate(rate, trades);
    assert (r - rate) * (n + 1.0) == 100.0 - rate;
    assert (100.0 - r) * (n + 1.0) == (100.0 - rate) * n;
    SignOfQuotient(r - rate, n + 1.0, 100.0 - rate);
    assert (100.0 - rate) * n >= 0.0;
    SignOfQuotient(100.0 - r, n + 1.0, (100.0 - rate) * n);
  }

  lemma SignOfQuotient(x: real, y: real, z: real)
    requires y > 0.0 && x * y == z && z >= 0.0
    ensures x >= 0.0
  {
  }

  /** The statistics of `b` after one run at `now` earning `profit`. */
  function RunStats(b: BotConfig, now: int, profit: real): (r: BotConfig)
    requires ProfitDraw(profit)
    ensures r.totalTrades == b.totalTrades + 1
    ensures r.totalProfit == b.totalProfit + profit && r.totalProfit > b.totalProfit
    ensures r.successRate == NextSuccessRate(b.successRate, b.totalTrades)
    ensures r.lastRun == Some(now)
    ensures r.(lastRun := b.lastRun, totalTrades := b.totalTrades, totalProfit := b.totalProfit,
               successRate := b.successRate) == b
  {
    b.(lastRun := Some(now),
       totalTrades := b.totalTrades + 1,
       totalProfit := b.totalProfit + profit,
       successRate := NextSuccessRate(b.successRate, b.totalTrades))
  }

  /** The saved copy of the edited bot, if any, receives the same run; other entries are untouched. */
  function UpdateSavedStats(saved: seq<BotConfig>, current: BotConfig, now: int, profit: real)
    : (r: seq<BotConfig>)
    requires ProfitDraw(profit)
    ensures !HasId(saved, current.id) ==> r == saved
    ensures HasId(saved, current.id) ==>
              var k := IndexOfId(saved, current.id);
              && |r| == |saved|
              && r[k] == RunStats(current, now, profit)
              && forall j :: 0 <= j < |saved| && j != k ==> r[j] == saved[j]
  {
    var k := IndexOfId(saved, current.id);
    if k >= 0 then ReplaceAt(saved, k, RunStats(current, now, profit)) else saved
  }

  /**
   * Execute: an auto-trading bot is refused while automatic execution is
   * switched off in the settings (the API-key dialog opens and nothing else
   * changes); otherwise the run completes and both the edited bot and its
   * saved copy record it. The two records draw separate random profits.
   */
  function ExecuteBot(p: Page, now: int, currentProfit: real, savedProfit: real): (r: Page)
    requires ProfitDraw(currentProfit) && ProfitDraw(savedProfit)
    ensures !p.autoExecuteTrades && p.current.autoTrade ==> r == p.(needsApiKey := true)
    ensures p.autoExecuteTrades || !p.current.autoTrade ==>
              && r.current == RunStats(p.current, now, currentProfit)
              && r.saved == UpdateSavedStats(p.saved, p.current, now, savedProfit)
              && r.needsApiKey == p.needsApiKey
              && r.activeType == p.activeType && r.autoExecuteTrades == p.autoExecuteTrades
  {
    if !p.autoExecuteTrades && p.current.autoTrade then p.(needsApiKey := true)
    else p.(current := RunStats(p.current, now, currentProfit),
            saved := UpdateSavedStats(p.saved, p.current, now, savedProfit))
  }

  // ------------------------------------------------------- pairs, exchanges

  /** What a picker offers: the catalogue entries not yet selected, in catalogue order. */
  function Offered(catalog: seq<string>, selected: seq<string>): (r: seq<string>)
    ensures forall x :: x in r <==> x in catalog && x !in selected
  {
    Filter((x: string) => x !in selected, catalog)
  }

  /** Picking an offered value (in the catalogue, not yet selected) appends it; the list stays free of duplicates. */
  function AddChoice(catalog: seq<string>, selected: seq<string>, value: string): (r: seq<string>)
    requires value in catalog && value !in selected
    ensures r == selected + [value]
    ensures NoDuplicates(selected) ==> NoDuplicates(r)
  {
    if NoDuplicates(selected) then AppendNoDuplicates(selected, value); selected + [value]
    else selected + [value]
  }

  /** Removing a value filters out exactly that value and keeps the rest in order. */
  function RemoveChoice(selected: seq<string>, value: string): (r: seq<string>)
    ensures forall x :: x in r <==> x in selected && x != value
    ensures IsSubsequence(r, selected)
    ensures NoDuplicates(selected) ==> NoDuplicates(r)
  {
    var p := (x: string) => x != value;
    if NoDuplicates(selected) then FilterNoDuplicates(p, selected); Filter(p, selected)
    else Filter(p, selected)
  }

  /** Adding a value and removing it again gives back the original list. */
  lemma {:induction false} AddThenRemove(catalog: seq<string>, selected: seq<string>, value: string)
    requires value in catalog && value !in selected
    ensures RemoveChoice(AddChoice(catalog, selected, value), value) == selected
  {
    var p := (x: string) => x != value;
    FilterAppend(p, selected, [value]);
    FilterKeepsAll(p, selected);
    assert Filter(p, [value]) == [];
  }

  function AddTradingPair(b: BotConfig, pair: string, now: int): (r: BotConfig)
    requires pair in TradingPairs && pair !in b.tradingPairs
    ensures r == b.(tradingPairs := b.tradingPairs + [pair], lastModified := now)
    ensures NoDuplicates(b.tradingPairs) ==> NoDuplicates(r.tradingPairs)
  {
    b.(tradingPairs := AddChoice(TradingPairs, b.tradingPairs, pair), lastModified := now)
  }

  function RemoveTradingPair(b: BotConfig, pair: string, now: int): (r: BotConfig)
    ensures pair !in r.tradingPairs
    ensures forall x :: x != pair ==> (x in r.tradingPairs <==> x in b.tradingPairs)
    ensures r == b.(tradingPairs := r.tradingPairs, lastModified := now)
    ensures NoDuplicates(b.tradingPairs) ==> NoDuplicates(r.tradingPairs)
  {
    b.(tradingPairs := RemoveChoice(b.tradingPairs, pair), lastModified := now)
  }

  function AddExchange(b: BotConfig, exchange: string, now: int): (r: BotConfig)
    requires exchange in Exchanges && exchange !in b.exchanges
    ensures r == b.(exchanges := b.exchanges + [exchange], lastModified := now)
    ensures NoDuplicates(b.exchanges) ==> NoDuplicates(r.exchanges)
  {
    b.(exchanges := AddChoice(Exchanges, b.exchanges, exchange), lastModified := now)
  }

  function RemoveExchange(b: BotConfig, exchange: string, now: int): (r: BotConfig)
    ensures exchange !in r.exchanges
    ensures forall x :: x != exchange ==> (x in r.exchanges <==> x in b.exchanges)
    ensures r == b.(exchanges := r.exchanges, lastModified := now)
    ensures NoDuplicates(b.exchanges) ==> NoDuplicates(r.exchanges)
  {
    b.(exchanges := RemoveChoice(b.exchanges, exchange), lastModified := now)
  }
}
