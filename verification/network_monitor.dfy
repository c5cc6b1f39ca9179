/**
 * The network monitor page: the simulated refresh of congestion levels and
 * statuses, the routing recommender that pairs cheap, uncongested
 * arbitrage networks sharing a supporting exchange, and the column-sort
 * toggle. The random congestion change and the "Issues" coin flip are
 * parameters; timestamps are integer milliseconds.
 */
module NetworkMonitor {
  import opened Sequences

  datatype NetworkStatus = Operational | Congested | Slow | Issues

  datatype Use = Arbitrage | Transfer | Trading

  datatype Network = Network(
    id: string,
    name: string,
    token: string,
    status: NetworkStatus,
    gasPrice: real,
    averageBlockTime: real,
    transactionFee: real,
    transactionTime: real,
    congestionLevel: real,
    recommendedFor: seq<Use>,
    lastUpdated: int)

  datatype ExchangeSupport = ExchangeSupport(exchange: string, networks: seq<string>)

  datatype Recommendation = Recommendation(from: string, to: string, reason: string)

  /** The built-in network table, stamped with the time the page module was loaded. */
  function InitialNetworks(loadedAt: int): seq<Network> {
    [ Network("ethereum", "Ethereum", "ETH", Operational, 25.0, 12.0, 5.23, 2.5, 45.0, [Trading], loadedAt),
      Network("binance", "Binance Smart Chain", "BNB", Operational, 5.0, 3.0, 0.15, 0.5, 20.0,
              [Arbitrage, Transfer, Trading], loadedAt),
      Network("polygon", "Polygon", "MATIC", Operational, 30.0, 2.0, 0.01, 0.3, 15.0,
              [Arbitrage, Transfer], loadedAt),
      Network("solana", "Solana", "SOL", Slow, 0.0, 0.4, 0.00025, 0.1, 60.0, [Transfer, Trading], loadedAt),
      Network("arbitrum", "Arbitrum", "ETH", Operational, 0.1, 0.25, 0.12, 0.2, 10.0,
              [Arbitrage, Transfer, Trading], loadedAt),
      Network("optimism", "Optimism", "ETH", Operational, 0.1, 0.5, 0.15, 0.3, 12.0,
              [Arbitrage, Transfer], loadedAt),
      Network("avalanche", "Avalanche", "AVAX", Congested, 35.0, 3.0, 0.6, 1.2, 75.0, [Trading], loadedAt),
      Network("tron", "Tron", "TRX", Operational, 0.0, 3.0, 0.0008, 0.8, 25.0, [Transfer], loadedAt) ]
  }

  /** Which exchanges can move funds over which networks. */
  const ExchangeNetworkSupport: seq<ExchangeSupport> := [
    ExchangeSupport("Binance", ["ethereum", "binance", "solana", "polygon", "avalanche", "tron"]),
    ExchangeSupport("Coinbase", ["ethereum", "solana", "polygon", "arbitrum", "optimism"]),
    ExchangeSupport("Kraken", ["ethereum", "solana", "polygon", "avalanche"]),
    ExchangeSupport("FTX", ["ethereum", "solana", "binance", "avalanche"]),
    ExchangeSupport("Huobi", ["ethereum", "binance", "solana", "avalanche", "tron"])]

  // -------------------------------------------------------------- refresh

  /** The new congestion level: old level plus the random change, clamped into [0, 100]. */
  function UpdatedCongestion(level: real, change: real): (r: real)
    ensures 0.0 <= r <= 100.0
    ensures 0.0 <= level + change <= 100.0 ==> r == level + change
    ensures level + change < 0.0 ==> r == 0.0
    ensures level + change > 100.0 ==> r == 100.0
  {
    var raised := level + change;
    var capped := if 100.0 < raised then 100.0 else raised;
    if 0.0 > capped then 0.0 else capped
  }

  /**
   * Status from congestion: above 80 Congested, above 60 Slow; between 40
   * and 60 the coin flip `unlucky` (a random draw above 0.7) reports Issues;
   * everything else is Operational.
   */
  function StatusFor(congestion: real, unlucky: bool): (s: NetworkStatus)
    ensures s == Congested <==> congestion > 80.0
    ensures s == Slow <==> 60.0 < congestion <= 80.0
    ensures s == Issues <==> 40.0 < congestion <= 60.0 && unlucky
    ensures s == Operational <==> congestion <= 40.0 || (congestion <= 60.0 && !unlucky)
  {
    if congestion > 80.0 then Congested
    else if congestion > 60.0 then Slow
    else if congestion > 40.0 && unlucky then Issues
    else Operational
  }

  function RefreshNetwork(n: Network, change: real, unlucky: bool, now: int): (r: Network)
    ensures 0.0 <= r.congestionLevel <= 100.0
    ensures r.status == StatusFor(r.congestionLevel, unlucky)
    ensures r.status == Issues ==> r.congestionLevel > 40.0
    ensures r == n.(congestionLevel := r.congestionLevel, status := r.status, lastUpdated := now)
  {
    var level := UpdatedCongestion(n.congestionLevel, change);
    n.(congestionLevel := level, status := StatusFor(level, unlucky), lastUpdated := now)
  }

  /**
   * The refresh: every network of the built-in table (not of the currently
   * shown list) gets a fresh congestion level and status, so changes never
   * accumulate across refreshes. One change and one coin flip per network.
   */
  function RefreshNetworks(loadedAt: int, changes: seq<real>, unlucky: seq<bool>, now: int)
    : (r: seq<Network>)
    requires |changes| == |InitialNetworks(loadedAt)| && |unlucky| == |changes|
    ensures |r| == |InitialNetworks(loadedAt)|
    ensures forall k :: 0 <= k < |r| ==>
              && r[k] == RefreshNetwork(InitialNetworks(loadedAt)[k], changes[k], unlucky[k], now)
              && 0.0 <= r[k].congestionLevel <= 100.0
              && (r[k].status == Congested <==> r[k].congestionLevel > 80.0)
  {
    var table := InitialNetworks(loadedAt);
    seq(|table|, k requires 0 <= k < |table| => RefreshNetwork(table[k], changes[k], unlucky[k], now))
  }

  // ------------------------------------------------------------ candidates

  /** Usable for arbitrage routing: tagged "arbitrage" and less than 50% congested. */
  predicate IsCandidate(n: Network) {
    Arbitrage in n.recommendedFor && n.congestionLevel < 50.0
  }

  function Fee(n: Network): real {
    n.transactionFee
  }

  /**
   * The routing candidates: the arbitrage-capable networks under 50%
   * congestion, cheapest first, at most three, each taken no more often
   * than it qualifies; all of them when at most three qualify, and
   * otherwise any qualifying network left out costs at least as much as
   * every one kept. The sort is stable, so among networks of equal fee the
   * ones kept are the first of them in the list's order.
   */
  function Candidates(networks: seq<Network>): (c: seq<Network>)
    ensures |c| <= 3
    ensures SortedByKey(Fee, c)
    ensures forall n :: n in c ==> n in networks && IsCandidate(n)
    ensures multiset(c) <= multiset(Filter(IsCandidate, networks))
    ensures |Filter(IsCandidate, networks)| <= 3 ==> multiset(c) == multiset(Filter(IsCandidate, networks))
    ensures |Filter(IsCandidate, networks)| >= 3 ==> |c| == 3
    ensures forall x, k :: x in networks && IsCandidate(x) && x !in c && 0 <= k < |c| ==>
              Fee(c[k]) <= Fee(x)
    ensures forall v :: WithKey(Fee, v, c) <= WithKey(Fee, v, Filter(IsCandidate, networks))
  {
    var eligible := Filter(IsCandidate, networks);
    var sorted := SortByKey(Fee, eligible);
    var c := if |sorted| <= 3 then sorted else sorted[..3];
    CandidatesCheapest(eligible, sorted, c);
    CandidatesFirstOfSort(eligible, c);
    c
  }

  /** The first three of the stable sort: no element more often than in the input, ties in input order. */
  lemma CandidatesFirstOfSort(eligible: seq<Network>, c: seq<Network>)
    requires var sorted := SortByKey(Fee, eligible); c == if |sorted| <= 3 then sorted else sorted[..3]
    ensures multiset(c) <= multiset(eligible)
    ensures |eligible| <= 3 ==> multiset(c) == multiset(eligible)
    ensures forall v :: WithKey(Fee, v, c) <= WithKey(Fee, v, eligible)
  {
    var sorted := SortByKey(Fee, eligible);
    var rest := sorted[|c|..];
    assert sorted == c + rest;
    assert multiset(sorted) == multiset(c) + multiset(rest);
    forall v
      ensures WithKey(Fee, v, c) <= WithKey(Fee, v, eligible)
    {
      WithKeyAppend(Fee, v, c, rest);
      SortByKeyStable(Fee, eligible, v);
    }
  }

  lemma CandidatesCheapest(eligible: seq<Network>, sorted: seq<Network>, c: seq<Network>)
    requires SortedByKey(Fee, sorted) && multiset(sorted) == multiset(eligible)
    requires c == if |sorted| <= 3 then sorted else sorted[..3]
    ensures forall n :: n in c ==> n in eligible
    ensures forall x, k :: x in eligible && x !in c && 0 <= k < |c| ==> Fee(c[k]) <= Fee(x)
  {
    forall n | n in c
      ensures n in eligible
    {
      assert n in multiset(sorted);
    }
    forall x, k | x in eligible && x !in c && 0 <= k < |c|
      ensures Fee(c[k]) <= Fee(x)
    {
      assert x in multiset(sorted);
      var m :| 0 <= m < |sorted| && sorted[m] == x;
      assert m >= |c|;
    }
  }

  // ------------------------------------------------------- recommendations

  /** The exchanges that support both networks, in table order. */
  function Supporting(table: seq<ExchangeSupport>, id1: string, id2: string): (r: seq<ExchangeSupport>)
    ensures forall e :: e in r <==> e in table && id1 in e.networks && id2 in e.networks
  {
    Filter((e: ExchangeSupport) => id1 in e.networks && id2 in e.networks, table)
  }

  /** The names joined with ", ". */
  function JoinNames(es: seq<ExchangeSupport>): string
    decreases |es|
  {
    if |es| == 0 then ""
    else if |es| == 1 then es[0].exchange
    else es[0].exchange + ", " + JoinNames(es[1..])
  }

  /** Some exchange carries both networks of the pair (a, b). */
  predicate Supported(table: seq<ExchangeSupport>, c: seq<Network>, a: nat, b: nat)
    requires a < |c| && b < |c|
  {
    |Supporting(table, c[a].id, c[b].id)| > 0
  }

  /** The recommendation for moving from candidate a to candidate b. */
  function Route(table: seq<ExchangeSupport>, c: seq<Network>, a: nat, b: nat): Recommendation
    requires a < |c| && b < |c|
  {
    Recommendation(c[a].name, c[b].name,
                   "Low fees and congestion, supported on " + JoinNames(Supporting(table, c[a].id, c[b].id)))
  }

  /** The recommendation for the pair (a, b) when some exchange supports both, else nothing. */
  function Offer(table: seq<ExchangeSupport>, c: seq<Network>, a: nat, b: nat): (r: seq<Recommendation>)
    ensures a < |c| && b < |c| && Supported(table, c, a, b) ==> r == [Route(table, c, a, b)]
    ensures !(a < |c| && b < |c| && Supported(table, c, a, b)) ==> r == []
  {
    if a < |c| && b < |c| && Supported(table, c, a, b) then [Route(table, c, a, b)] else []
  }

  /*
   * The nested loops, for any per-pair output `offer`: RowPrefix(offer, a, b)
   * is what the inner loop has emitted for row `a` on reaching column `b`,
   * PairsPrefix(offer, n, a) what the outer loop has emitted over n items on
   * reaching row `a`.
   */

  function RowPrefix<R>(offer: (nat, nat) -> seq<R>, a: nat, b: nat): seq<R>
    decreases b
  {
    if b <= a + 1 then [] else RowPrefix(offer, a, b - 1) + offer(a, b - 1)
  }

  function PairsPrefix<R>(offer: (nat, nat) -> seq<R>, n: nat, a: nat): seq<R>
    decreases a
  {
    if a == 0 then [] else PairsPrefix(offer, n, a - 1) + RowPrefix(offer, a - 1, n)
  }

  /** Everything a row emits comes from one of its pairs. */
  lemma {:induction false} RowSound<R>(offer: (nat, nat) -> seq<R>, a: nat, b: nat)
    ensures forall r :: r in RowPrefix(offer, a, b) ==> exists b' :: a < b' < b && r in offer(a, b')
    decreases b
  {
    if b > a + 1 {
      RowSound(offer, a, b - 1);
    }
  }

  lemma {:induction false} PairsSound<R>(offer: (nat, nat) -> seq<R>, n: nat, i: nat)
    ensures forall r :: r in PairsPrefix(offer, n, i) ==>
              exists a, b :: 0 <= a < i && a < b < n && r in offer(a, b)
    decreases i
  {
    if i > 0 {
      PairsSound(offer, n, i - 1);
      RowSound(offer, i - 1, n);
    }
  }

  /** Everything a pair offers is emitted by its row. */
  lemma {:induction false} RowComplete<R>(offer: (nat, nat) -> seq<R>, a: nat, b: nat)
    ensures forall b', r :: a < b' < b && r in offer(a, b') ==> r in RowPrefix(offer, a, b)
    decreases b
  {
    if b > a + 1 {
      RowComplete(offer, a, b - 1);
    }
  }

  lemma {:induction false} PairsComplete<R>(offer: (nat, nat) -> seq<R>, n: nat, i: nat)
    ensures forall a, b, r :: 0 <= a < i && a < b < n && r in offer(a, b) ==> r in PairsPrefix(offer, n, i)
    decreases i
  {
    if i > 0 {
      PairsComplete(offer, n, i - 1);
      RowComplete(offer, i - 1, n);
    }
  }

  /** Over two or three items the loops visit exactly (0,1), (0,2), (1,2), in that order. */
  lemma PairsOfFew<R>(offer: (nat, nat) -> seq<R>, n: nat)
    requires 2 <= n <= 3
    ensures n == 2 ==> PairsPrefix(offer, 2, 2) == offer(0, 1)
    ensures n == 3 ==> PairsPrefix(offer, 3, 3) == offer(0, 1) + offer(0, 2) + offer(1, 2)
  {
    assert RowPrefix(offer, 0, 2) == offer(0, 1);
    if n == 3 {
      assert RowPrefix(offer, 0, 3) == offer(0, 1) + offer(0, 2);
      assert RowPrefix(offer, 1, 3) == offer(1, 2);
      assert RowPrefix(offer, 2, 3) == [];
    } else {
      assert RowPrefix(offer, 1, 2) == [];
    }
  }

  /** The per-pair output of the recommender over the candidates `c`. */
  function OfferOver(table: seq<ExchangeSupport>, c: seq<Network>): (nat, nat) -> seq<Recommendation> {
    (a: nat, b: nat) => Offer(table, c, a, b)
  }

  /**
   * The recommender over fee-sorted candidates `c` and a support table: with
   * fewer than two candidates the previous list is kept; otherwise one
   * recommendation per supported candidate pair i < j,
   * so at most three, each from a network no more expensive than its target.
   */
  method Recommend(table: seq<ExchangeSupport>, c: seq<Network>, previous: seq<Recommendation>)
    returns (recs: seq<Recommendation>)
    requires |c| <= 3 && SortedByKey(Fee, c)
    ensures |c| < 2 ==> recs == previous
    ensures |c| >= 2 ==> |recs| <= 3
    ensures |c| >= 2 ==> forall r :: r in recs <==>
      exists a, b :: 0 <= a < b < |c| && Supported(table, c, a, b) && r == Route(table, c, a, b)
    ensures |c| >= 2 ==> forall r :: r in recs ==>
      exists a, b :: 0 <= a < b < |c| && r.from == c[a].name && r.to == c[b].name && Fee(c[a]) <= Fee(c[b])
  {
    if |c| < 2 {
      return previous;
    }
    recs := VisitPairs(OfferOver(table, c), |c|);
    RoutesBounded(table, c);
    RoutesSound(table, c);
    RoutesComplete(table, c);
    RoutesCheaperFirst(table, c);
  }

  /** The page's recommender: the candidates of the refreshed list, paired over the built-in support table. */
  method GenerateRecommendations(networks: seq<Network>, previous: seq<Recommendation>)
    returns (recs: seq<Recommendation>)
    ensures |Candidates(networks)| < 2 ==> recs == previous
    ensures |Candidates(networks)| >= 2 ==> |recs| <= 3
    ensures var c := Candidates(networks);
      |c| >= 2 ==> forall r :: r in recs <==>
        exists a, b :: 0 <= a < b < |c| && Supported(ExchangeNetworkSupport, c, a, b)
          && r == Route(ExchangeNetworkSupport, c, a, b)
    ensures var c := Candidates(networks);
      |c| >= 2 ==> forall r :: r in recs ==>
        exists a, b :: 0 <= a < b < |c| && r.from == c[a].name && r.to == c[b].name && Fee(c[a]) <= Fee(c[b])
  {
    recs := Recommend(ExchangeNetworkSupport, Candidates(networks), previous);
  }

  /**
   * The nested loops over pairs i < j of n items, in visiting order,
   * concatenating what `offer` yields for each pair.
   */
  method VisitPairs<R>(offer: (nat, nat) -> seq<R>, n: nat) returns (out: seq<R>)
    ensures out == PairsPrefix(offer, n, n)
  {
    out := [];
    var i := 0;
    while i < n
      invariant 0 <= i <= n
      invariant out == PairsPrefix(offer, n, i)
    {
      var j := i + 1;
      while j < n
        invariant i + 1 <= j <= n
        invariant out == PairsPrefix(offer, n, i) + RowPrefix(offer, i, j)
      {
        out := out + offer(i, j);
        j := j + 1;
      }
      i := i + 1;
    }
  }

  /** Over two or three candidates the loops emit at most three routes. */
  lemma RoutesBounded(table: seq<ExchangeSupport>, c: seq<Network>)
    requires 2 <= |c| <= 3
    ensures |PairsPrefix(OfferOver(table, c), |c|, |c|)| <= 3
  {
    PairsOfFew(OfferOver(table, c), |c|);
  }

  /** Every emitted route belongs to a supported pair a < b of candidates. */
  lemma RoutesSound(table: seq<ExchangeSupport>, c: seq<Network>)
    ensures forall r :: r in PairsPrefix(OfferOver(table, c), |c|, |c|) ==>
              exists a, b :: 0 <= a < b < |c| && Supported(table, c, a, b) && r == Route(table, c, a, b)
  {
    var offer := OfferOver(table, c);
    PairsSound(offer, |c|, |c|);
    forall r | r in PairsPrefix(offer, |c|, |c|)
      ensures exists a, b :: 0 <= a < b < |c| && Supported(table, c, a, b) && r == Route(table, c, a, b)
    {
      var a, b :| 0 <= a < |c| && a < b < |c| && r in offer(a, b);
      assert offer(a, b) == Offer(table, c, a, b);
      assert Supported(table, c, a, b);
      assert r == Route(table, c, a, b);
    }
  }

  /** Every supported pair a < b of candidates is emitted. */
  lemma RoutesComplete(table: seq<ExchangeSupport>, c: seq<Network>)
    ensures forall a, b :: 0 <= a < b < |c| && Supported(table, c, a, b) ==>
              Route(table, c, a, b) in PairsPrefix(OfferOver(table, c), |c|, |c|)
  {
    var offer := OfferOver(table, c);
    PairsComplete(offer, |c|, |c|);
    forall a, b | 0 <= a < b < |c| && Supported(table, c, a, b)
      ensures Route(table, c, a, b) in PairsPrefix(offer, |c|, |c|)
    {
      assert offer(a, b) == [Route(table, c, a, b)];
    }
  }

  /** Over fee-sorted candidates every route starts at a network no more expensive than its target. */
  lemma RoutesCheaperFirst(table: seq<ExchangeSupport>, c: seq<Network>)
    requires SortedByKey(Fee, c)
    ensures forall r :: r in PairsPrefix(OfferOver(table, c), |c|, |c|) ==>
              exists a, b :: 0 <= a < b < |c| && r.from == c[a].name && r.to == c[b].name
                && Fee(c[a]) <= Fee(c[b])
  {
    RoutesSound(table, c);
    forall r | r in PairsPrefix(OfferOver(table, c), |c|, |c|)
      ensures exists a, b :: 0 <= a < b < |c| && r.from == c[a].name && r.to == c[b].name
                && Fee(c[a]) <= Fee(c[b])
    {
      var a, b :| 0 <= a < b < |c| && Supported(table, c, a, b) && r == Route(table, c, a, b);
      assert r.from == c[a].name && r.to == c[b].name;
    }
  }

  // ------------------------------------------------------------ sort state

  datatype Column =
    | Id | Name | Token | Status | GasPrice | AverageBlockTime | TransactionFee
    | TransactionTime | CongestionLevel | RecommendedFor | LastUpdated

  datatype Direction = Asc | Desc

  datatype SortState = SortState(column: Column, direction: Direction)

  const InitialSort: SortState := SortState(CongestionLevel, Asc)

  /** A header click: the sorted column flips direction; another column becomes sorted ascending. */
  function HandleSort(s: SortState, column: Column): (r: SortState)
    ensures r.column == column
    ensures column == s.column ==> r.direction != s.direction
    ensures column != s.column ==> r.direction == Asc
  {
    if s.column == column then s.(direction := if s.direction == Asc then Desc else Asc)
    else SortState(column, Asc)
  }

  /** Clicking the sorted column twice restores the state; a new column clicked twice ends descending. */
  lemma HandleSortTwice(s: SortState, column: Column)
    ensures column == s.column ==> HandleSort(HandleSort(s, column), column) == s
    ensures column != s.column ==> HandleSort(HandleSort(s, column), column) == SortState(column, Desc)
  {
  }
}
