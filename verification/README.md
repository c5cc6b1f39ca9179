# ArbitrageNexus core logic in Dafny

A functional model of the decision logic inside the ArbitrageNexus crypto-arbitrage dashboard, with the properties its code
promises proved about the model:

- **ProfitCalculator**: the four closed-form profit evaluators (direct, triangular, futures, peer-to-peer), the
  tab dispatcher behind the Calculate button, and the rule that displays a time in minutes, hours or days.
- **BotTrading**: the saved-bot list (upsert by id, delete by id, load), the execute guard and the
  statistics a run records, and the trading-pair and exchange pickers.
- **NetworkMonitor**: the simulated refresh (congestion clamp, status thresholds), the routing recommender that pairs
  the three cheapest uncongested arbitrage networks sharing an exchange, and the column-sort toggle.
- **NewsTicker**: both copies of the news ticker component, covering:
  - feed classification (category mapping and the "breaking" flag);
  - search and category filtering and the category toggles;
  - the wrap-around ticker position.
- **MemStorage**: the server's in-memory store. It has three id-keyed tables with independent id counters, and create,
  lookup, delete and merge-update operations.
- **Supabase**: the per-user fixed-window rate limiter and the key-rotation check.
- **Wrappers** and **Sequences**: helper modules. Wrappers holds `Option`. Sequences holds an order-preserving
  `Filter`, first-match search and a stable insertion sort by key.

Modelling conventions:

- Money and percentages are `real`.
- Minutes, days and millisecond timestamps are `int`.
- The clock (`Date.now()`, `new Date()`), every `Math.random()` draw and every freshly generated id are parameters.
- React state updates become pure functions from the old state to the new one.
- A JavaScript `Map` becomes an association list kept in insertion order, since that is the order `values()` iterates
  in and `find` depends on it.
- A JavaScript `undefined` becomes `Option.None`.

## Model

| member | source | states |
|---|---|---|
| ProfitCalculator.Tier | client/src/pages/ProfitCalculator.tsx:103 | Low exactly above the upper bound, Medium in the half-open band above the lower bound, High at or below the lower bound; both bounds exclusive |
| ProfitCalculator.Percent | client/src/pages/ProfitCalculator.tsx:95 | the percentage times its base equals the part times 100 |
| ProfitCalculator.Direct | client/src/pages/ProfitCalculator.tsx:87-105 | gross = sell·amount − buy·amount; fee = both exchange fees on their own notional plus the network fee only when switched on; net = gross − fee; percentage over buy·amount; time 5 minutes; tier by the percentage with bounds 2 and 0.5 |
| ProfitCalculator.DirectIgnoresNetworkFeeWhenExcluded | client/src/pages/ProfitCalculator.tsx:91-94 | with network fees switched off, changing the network fee changes no output |
| ProfitCalculator.DirectFeesNonNegative | client/src/pages/ProfitCalculator.tsx:91-94 | non-negative prices, amount and fee rates give a non-negative fee total, so net never exceeds gross |
| ProfitCalculator.DirectMonotoneInSellPrice | client/src/pages/ProfitCalculator.tsx:90-95 | with a positive amount and a sell fee under 100%, a higher sell price strictly raises both gross and net profit |
| ProfitCalculator.DirectTierBoundaries | client/src/pages/ProfitCalculator.tsx:102-103 | exactly 2% is Medium, exactly 0.5% is High, and Low holds exactly above 2% |
| ProfitCalculator.DirectDefaultForm | client/src/pages/ProfitCalculator.tsx:44-53 | the page's default direct form yields 200 gross, 68.2 fees, 131.8 net and High risk |
| ProfitCalculator.Triangular | client/src/pages/ProfitCalculator.tsx:107-144 | gross·r3 = start·r1·r2 − start·r3; leg fees on start·r1 once and on start·r1·r2 twice, plus slippage as a share of gross when on; net = gross − fee; percentage over start; time 1 minute; tier bounds 1.5 and 0.3 |
| ProfitCalculator.TriangularFeeNegativeOnLoss | client/src/pages/ProfitCalculator.tsx:120-128 | with slippage on, no exchange fee and a losing loop, the reported fee total is negative |
| ProfitCalculator.TriangularLosingLoop | client/src/pages/ProfitCalculator.tsx:107-131 | a concrete losing loop (1000 through rates 1, 1, 2 with 0.5% slippage) reports −500 gross and a −2.5 fee |
| ProfitCalculator.Annualised | client/src/pages/ProfitCalculator.tsx:169 | the annualised return times the days equals the percentage times 365 |
| ProfitCalculator.Futures | client/src/pages/ProfitCalculator.tsx:146-179 | gross = futures·amount − spot·amount; fee = both exchange fees plus funding spot·amount·rate·days/100; net = gross − fee; percentage over spot·amount; time = days·1440; tier by the annualised return with bounds 15 and 5 |
| ProfitCalculator.FuturesTierFollowsHorizon | client/src/pages/ProfitCalculator.tsx:169-177 | the same 1.2% return is Low risk over 10 days and High risk over 365 days |
| ProfitCalculator.FuturesDefaultForm | client/src/pages/ProfitCalculator.tsx:67-75 | the default futures form yields 400 gross, 119.45 costs, 280.55 net, 43200 minutes and Medium risk |
| ProfitCalculator.P2P | client/src/pages/ProfitCalculator.tsx:181-207 | gross = amount·sell − amount·buy; fee = payment fee on the buy total plus the flat withdrawal fee; net = gross − fee; percentage over the buy total; time is the user's estimate; tier bounds 3 and 1 |
| ProfitCalculator.P2PDefaultForm | client/src/pages/ProfitCalculator.tsx:78-85 | the default P2P form yields 40 gross, 19.7 fees, 20.3 net and Medium risk |
| ProfitCalculator.HandleCalculate | client/src/pages/ProfitCalculator.tsx:209-224 | each of the four known tags runs exactly its own evaluator on its own form; any other tag leaves the shown result as it was |
| ProfitCalculator.CalculationBalances | client/src/pages/ProfitCalculator.tsx:209-224 | whichever tab is selected, a shown result satisfies net = gross − fee |
| ProfitCalculator.FormatDuration | client/src/pages/ProfitCalculator.tsx:264-268 | days from 1440 minutes, hours from 60, minutes below; the displayed amount converts back to exactly the input |
| BotTrading.DefaultBot | ArbitrageNexus/client/src/pages/BotTrading.tsx:184-196 | a reset bot is disabled, not auto-trading, trades BTC/USDT on Binance and Coinbase, and has empty statistics |
| BotTrading.IndexOfId | ArbitrageNexus/client/src/pages/BotTrading.tsx:152 | the position of the first bot with the id, or −1 exactly when no bot has it |
| BotTrading.ReplaceAt | ArbitrageNexus/client/src/pages/BotTrading.tsx:154-155 | the copied list differs from the original only at the given position |
| BotTrading.SaveBotConfig | ArbitrageNexus/client/src/pages/BotTrading.tsx:149-169 | a saved id is replaced in place with a fresh modification time, length and other entries unchanged; a new id is appended with fresh creation and modification times |
| BotTrading.SaveKeepsIdsUnique | ArbitrageNexus/client/src/pages/BotTrading.tsx:152-167 | if ids were unique before a save they stay unique, and exactly one entry carries the saved id |
| BotTrading.RemoveId | ArbitrageNexus/client/src/pages/BotTrading.tsx:180 | exactly the bots with other ids remain, in their original order |
| BotTrading.RemoveAbsentIdIsNoOp | ArbitrageNexus/client/src/pages/BotTrading.tsx:180 | deleting an id that is not saved leaves the list unchanged |
| BotTrading.DeleteBotConfig | ArbitrageNexus/client/src/pages/BotTrading.tsx:179-198 | no saved bot keeps the id; the edited bot is reset to the active type's default only when it is the one deleted |
| BotTrading.WithDefaults | ArbitrageNexus/client/src/pages/BotTrading.tsx:45-86 | the type's name, type, five limits and network auto-selection replace the bot's own; every other field is kept |
| BotTrading.SetActiveType | ArbitrageNexus/client/src/pages/BotTrading.tsx:138-147 | the active type is set; only a change of type runs the effect, which gives the edited bot the type's defaults, a new id and a fresh modification time while keeping its pairs, exchanges and statistics; nothing else on the page changes |
| BotTrading.LoadBotConfig | ArbitrageNexus/client/src/pages/BotTrading.tsx:171-177 | the first saved bot with the id becomes the edited bot and its type the active type; for a bot of another type the type-change effect then runs over it; an unknown id changes nothing |
| BotTrading.LoadOtherTypeForgetsBot | ArbitrageNexus/client/src/pages/BotTrading.tsx:138-177 | loading a bot of another type than the active one replaces its id and name, and a later save appends a second entry instead of updating it |
| BotTrading.LoadOtherTypeExample | ArbitrageNexus/client/src/pages/BotTrading.tsx:138-177 | a saved triangular bot named "My bot" with a 5000 trade limit, loaded while the direct type is active, comes back as "Triangular Arbitrage Bot" with a 1500 limit and a new id, and saving it gives two entries |
| BotTrading.LoadBotKeepingConfig | ArbitrageNexus/client/src/pages/BotTrading.tsx:171-177 | the intended load: the first saved bot with the id becomes the edited bot unchanged and selects its type; an unknown id changes nothing |
| BotTrading.LoadThenSaveUpdatesInPlace | ArbitrageNexus/client/src/pages/BotTrading.tsx:149-177 | after the intended load, saving updates the loaded bot's own entry in place with a fresh modification time |
| BotTrading.NextSuccessRate | ArbitrageNexus/client/src/pages/BotTrading.tsx:219 | the new rate times (n + 1) equals the old rate times n plus 100 |
| BotTrading.SuccessRateStaysPercentage | ArbitrageNexus/client/src/pages/BotTrading.tsx:219 | a rate in [0, 100] stays in [0, 100] and never falls after another run |
| BotTrading.RunStats | ArbitrageNexus/client/src/pages/BotTrading.tsx:214-220 | a run adds one trade, adds exactly the drawn profit (so the total strictly rises), updates the success rate, records the run time, and changes nothing else |
| BotTrading.UpdateSavedStats | ArbitrageNexus/client/src/pages/BotTrading.tsx:223-237 | only the saved entry with the edited bot's id receives the run; with no such entry the list is unchanged |
| BotTrading.ExecuteBot | ArbitrageNexus/client/src/pages/BotTrading.tsx:200-243 | an auto-trading bot with automatic execution off only raises the API-key dialog; otherwise both the edited bot and its saved copy record the run, and the dialog flag, active type and settings switch are unchanged |
| BotTrading.Offered | ArbitrageNexus/client/src/pages/BotTrading.tsx:616 | the picker offers exactly the catalogue values not yet selected |
| BotTrading.AddChoice | ArbitrageNexus/client/src/pages/BotTrading.tsx:610 | an offered value is appended, and a duplicate-free list stays duplicate-free |
| BotTrading.RemoveChoice | ArbitrageNexus/client/src/pages/BotTrading.tsx:631 | exactly the given value is removed, the rest keep their order, and no duplicates appear |
| BotTrading.AddThenRemove | ArbitrageNexus/client/src/pages/BotTrading.tsx:610-631 | adding an offered value and removing it again gives back the original list |
| BotTrading.AddTradingPair | ArbitrageNexus/client/src/pages/BotTrading.tsx:610-616 | the pair is appended, the modification time is updated, and the pair list stays duplicate-free |
| BotTrading.RemoveTradingPair | ArbitrageNexus/client/src/pages/BotTrading.tsx:631 | the pair is gone, every other pair's membership is unchanged, and nothing else but the modification time changes |
| BotTrading.AddExchange | ArbitrageNexus/client/src/pages/BotTrading.tsx:651-657 | the exchange is appended, the modification time is updated, and the exchange list stays duplicate-free |
| BotTrading.RemoveExchange | ArbitrageNexus/client/src/pages/BotTrading.tsx:672 | the exchange is gone, every other exchange's membership is unchanged, and nothing else but the modification time changes |
| NetworkMonitor.UpdatedCongestion | ArbitrageNexus/client/src/pages/NetworkMonitor.tsx:191 | for any change the level lies in [0, 100]; it is the raw sum when that is in range and the nearer bound otherwise |
| NetworkMonitor.StatusFor | ArbitrageNexus/client/src/pages/NetworkMonitor.tsx:193-196 | Congested exactly above 80, Slow exactly in (60, 80], Issues exactly in (40, 60] on an unlucky draw, Operational otherwise |
| NetworkMonitor.RefreshNetwork | ArbitrageNexus/client/src/pages/NetworkMonitor.tsx:189-204 | only congestion, status and update time change; congestion is in range; Issues only above 40 |
| NetworkMonitor.RefreshNetworks | ArbitrageNexus/client/src/pages/NetworkMonitor.tsx:184-212 | every network of the built-in table is refreshed in order with its own draw, all congestion levels in [0, 100] |
| NetworkMonitor.Candidates | ArbitrageNexus/client/src/pages/NetworkMonitor.tsx:217-220 | at most three qualifying networks, sorted by fee, none more often than it qualifies; all of them when at most three qualify, three otherwise; none left out is cheaper than one kept; among equal fees the kept ones are the first in the list's order |
| NetworkMonitor.CandidatesFirstOfSort | ArbitrageNexus/client/src/pages/NetworkMonitor.tsx:219-220 | the first three of the stable fee sort are a sub-multiset of the eligible networks, all of them when at most three, and for each fee an order-preserving prefix of the eligible networks with that fee |
| Sequences.SortByKeyStable | ArbitrageNexus/client/src/pages/NetworkMonitor.tsx:219 | the fee sort is stable, as `Array.prototype.sort` is: for every key value, its elements keep their input order |
| NetworkMonitor.CandidatesCheapest | ArbitrageNexus/client/src/pages/NetworkMonitor.tsx:219-220 | taking the first three of a fee-sorted permutation keeps only eligible networks, and no left-out network is cheaper than a kept one |
| NetworkMonitor.Supporting | ArbitrageNexus/client/src/pages/NetworkMonitor.tsx:233-235 | exactly the exchanges that list both network ids |
| NetworkMonitor.Offer | ArbitrageNexus/client/src/pages/NetworkMonitor.tsx:237-243 | a pair yields its route exactly when some exchange supports both networks, and nothing otherwise |
| NetworkMonitor.RowSound | ArbitrageNexus/client/src/pages/NetworkMonitor.tsx:228-244 | everything the inner loop emits comes from a pair of its row |
| NetworkMonitor.PairsSound | ArbitrageNexus/client/src/pages/NetworkMonitor.tsx:227-245 | everything the nested loops emit comes from some pair a < b |
| NetworkMonitor.RowComplete | ArbitrageNexus/client/src/pages/NetworkMonitor.tsx:228-244 | everything a pair of the row offers is emitted by the inner loop |
| NetworkMonitor.PairsComplete | ArbitrageNexus/client/src/pages/NetworkMonitor.tsx:227-245 | everything any pair a < b offers is emitted by the nested loops |
| NetworkMonitor.PairsOfFew | ArbitrageNexus/client/src/pages/NetworkMonitor.tsx:227-228 | over two items the loops visit (0,1); over three they visit (0,1), (0,2), (1,2) in that order |
| NetworkMonitor.VisitPairs | ArbitrageNexus/client/src/pages/NetworkMonitor.tsx:227-245 | the nested loops over i < j concatenate each pair's output in visiting order |
| NetworkMonitor.Recommend | ArbitrageNexus/client/src/pages/NetworkMonitor.tsx:222-247 | over at most three fee-sorted candidates: fewer than two keep the previous list; otherwise at most three routes, and a route is emitted exactly when it belongs to a supported candidate pair i < j, each from a network no more expensive than its target |
| NetworkMonitor.GenerateRecommendations | ArbitrageNexus/client/src/pages/NetworkMonitor.tsx:215-248 | fewer than two candidates keep the previous list; otherwise at most three routes, a route is emitted exactly when it joins a candidate pair i < j that some exchange of the page's support table carries, and each starts at a network no more expensive than its target |
| NetworkMonitor.RoutesBounded | ArbitrageNexus/client/src/pages/NetworkMonitor.tsx:220-245 | over two or three candidates at most three routes are emitted |
| NetworkMonitor.RoutesSound | ArbitrageNexus/client/src/pages/NetworkMonitor.tsx:233-243 | every emitted route belongs to a supported candidate pair a < b |
| NetworkMonitor.RoutesComplete | ArbitrageNexus/client/src/pages/NetworkMonitor.tsx:233-243 | every supported candidate pair a < b is emitted |
| NetworkMonitor.RoutesCheaperFirst | ArbitrageNexus/client/src/pages/NetworkMonitor.tsx:219-241 | over fee-sorted candidates every route starts at a network no more expensive than its target |
| NetworkMonitor.HandleSort | ArbitrageNexus/client/src/pages/NetworkMonitor.tsx:268-275 | the clicked column becomes the sort column; the same column flips direction, a new one starts ascending |
| NetworkMonitor.HandleSortTwice | ArbitrageNexus/client/src/pages/NetworkMonitor.tsx:268-275 | two clicks on the sorted column restore the state; two clicks on a new column leave it descending |
| NewsTicker.LowerChar | ArbitrageNexus/client/src/components/dashboard/NewsTicker.tsx:111 | upper-case ASCII letters map to lower case, every other character is kept, and no upper-case letter remains |
| NewsTicker.Lower | ArbitrageNexus/client/src/components/dashboard/NewsTicker.tsx:111 | the lowered string has the same length and lowers each character |
| NewsTicker.LowerIdempotent | client/src/components/dashboard/NewsTicker.tsx:111-112 | lowering twice is lowering once |
| NewsTicker.ContainsAt | ArbitrageNexus/client/src/components/dashboard/NewsTicker.tsx:108-114 | the recursive substring test holds exactly when the pattern occurs at some index |
| NewsTicker.ContainsLower | client/src/components/dashboard/NewsTicker.tsx:111-112 | a substring stays a substring after lowering both strings |
| NewsTicker.Split | ArbitrageNexus/client/src/components/dashboard/NewsTicker.tsx:90 | at least one part, no part contains the separator, and joining the parts with it gives back the input |
| NewsTicker.SplitWhole | ArbitrageNexus/client/src/components/dashboard/NewsTicker.tsx:90 | a string without the separator splits into itself alone |
| NewsTicker.SplitFirst | ArbitrageNexus/client/src/components/dashboard/NewsTicker.tsx:90 | splitting a + separator + b gives a followed by the parts of b |
| NewsTicker.FirstMapped | ArbitrageNexus/client/src/components/dashboard/NewsTicker.tsx:90-95 | the mapping of the first part that has one, and None exactly when no part has one |
| NewsTicker.Categorize | ArbitrageNexus/client/src/components/dashboard/NewsTicker.tsx:86-104 | a non-empty category field decides by its first mapped name, and gives Market when none of its names maps (the tags are then not consulted); otherwise non-empty tags decide the same way; with neither field set, or no mapped tag, the default is Market |
| NewsTicker.CategoriesShadowTags | ArbitrageNexus/client/src/components/dashboard/NewsTicker.tsx:88-97 | a non-empty category field decides alone, whatever the tags say |
| NewsTicker.FirstCategoryWins | ArbitrageNexus/client/src/components/dashboard/NewsTicker.tsx:90-93 | a mapped first category name decides, whatever follows it |
| NewsTicker.UnmappedCategoryIsMarket | ArbitrageNexus/client/src/components/dashboard/NewsTicker.tsx:86-97 | a single unmapped category name gives Market, even when the tags would map |
| NewsTicker.SecAnyCaseIsImportant | ArbitrageNexus/client/src/components/dashboard/NewsTicker.tsx:111 | a title containing "sec" in any letter case is breaking |
| NewsTicker.ImportantExamples | ArbitrageNexus/client/src/components/dashboard/NewsTicker.tsx:107-114 | "a second" and "SECOND" are breaking through the "sec" test, while the other words match case-sensitively ("BREAKS" does not contain "breaks") |
| NewsTicker.ToNewsItem | ArbitrageNexus/client/src/components/dashboard/NewsTicker.tsx:84-124 | the story's category is the categorisation of its fields and it is breaking exactly when its title is |
| NewsTicker.FilterNews | ArbitrageNexus/client/src/components/dashboard/NewsTicker.tsx:146-155 | exactly the stories that match the search and the toggles, in their original order, never more than the input |
| NewsTicker.FilterNothingKeepsAll | client/src/components/dashboard/NewsTicker.tsx:109-118 | an empty query with no toggles keeps the whole list |
| NewsTicker.SearchIgnoresQueryCase | client/src/components/dashboard/NewsTicker.tsx:110-112 | a query matches exactly when its lower-cased form does |
| NewsTicker.ToggleFilter | ArbitrageNexus/client/src/components/dashboard/NewsTicker.tsx:158-164 | the category's membership flips, every other category's is unchanged, and no duplicates appear |
| NewsTicker.ToggleTwice | client/src/components/dashboard/NewsTicker.tsx:121-127 | toggling twice restores membership, and restores the exact list when the category was inactive |
| NewsTicker.Next | ArbitrageNexus/client/src/components/dashboard/NewsTicker.tsx:283 | the next position stays in range and wraps from the last story to the first |
| NewsTicker.Prev | ArbitrageNexus/client/src/components/dashboard/NewsTicker.tsx:274 | the previous position stays in range and wraps from the first story to the last |
| NewsTicker.PrevNextInverse | client/src/components/dashboard/NewsTicker.tsx:206-215 | back after forward, and forward after back, return to the same position |
| NewsTicker.AdvanceStraight | ArbitrageNexus/client/src/components/dashboard/NewsTicker.tsx:170 | k steps that do not reach the end move the position by exactly k |
| NewsTicker.AdvanceSplit | ArbitrageNexus/client/src/components/dashboard/NewsTicker.tsx:170 | a + b steps are a steps followed by b steps |
| NewsTicker.FullCircle | client/src/components/dashboard/NewsTicker.tsx:133 | as many ticks as there are stories bring the ticker back to where it started |
| NewsTicker.Shown | ArbitrageNexus/client/src/components/dashboard/NewsTicker.tsx:236-264 | a shown story is in the filtered list, and an in-range position on a non-empty list shows the story at that position; None stands for the empty-list placeholder or, for a position past the end of a non-empty list, for the throwing `.id` read |
| NewsTicker.AutoTick | client/src/components/dashboard/NewsTicker.tsx:130-138 | the tick moves only while collapsed on a non-empty list, one story forward and from the last back to the first, and keeps the position in range |
| NewsTicker.PressNext | client/src/components/dashboard/NewsTicker.tsx:215-216 | disabled for at most one story; otherwise one story forward, wrapping from the last to the first, within range |
| NewsTicker.PressPrev | client/src/components/dashboard/NewsTicker.tsx:206-207 | disabled for at most one story; otherwise one story back, wrapping from the first to the last, within range |
| NewsTicker.PressesUndo | client/src/components/dashboard/NewsTicker.tsx:206-216 | from any listed story, back after forward and forward after back return to it |
| NewsTicker.TicksAreAdvance | client/src/components/dashboard/NewsTicker.tsx:130-138 | k collapsed ticks are k wrapping steps forward |
| NewsTicker.TicksGoFullCircle | client/src/components/dashboard/NewsTicker.tsx:130-138 | as many collapsed ticks as there are stories bring back the story shown first |
| NewsTicker.Select | client/src/components/dashboard/NewsTicker.tsx:287 | clicking the k-th listed story sets the position to k and shows exactly that story |
| NewsTicker.ToggleAsWritten | client/src/components/dashboard/NewsTicker.tsx:121-127 | toggling updates the active categories and leaves the position where it was |
| NewsTicker.ToggleAsWrittenLosesPosition | client/src/components/dashboard/NewsTicker.tsx:121-127 | a two-story list at position 1, narrowed to one category, points past the end of a non-empty list, where the collapsed ticker's `.id` read throws (`Shown` is None) |
| NewsTicker.Toggle | ArbitrageNexus/client/src/components/dashboard/NewsTicker.tsx:158-164 | toggling flips the category and keeps the position in range, unchanged whenever it still fits |
| NewsTicker.Search | ArbitrageNexus/client/src/components/dashboard/NewsTicker.tsx:146-155 | typing a search keeps the position in range, unchanged whenever it still fits |
| MemStorage.Values | ArbitrageNexus/server/storage.ts:50 | the table's values in insertion order |
| MemStorage.IndexOf | ArbitrageNexus/server/storage.ts:46 | the position of the key, or −1 exactly when the key is absent |
| MemStorage.Get | ArbitrageNexus/server/storage.ts:45-47 | None exactly when the key is absent; otherwise the value stored under it, the only one in a table without duplicate keys |
| MemStorage.Set | ArbitrageNexus/server/storage.ts:67 | a present key keeps every key in its place; a new key is appended |
| MemStorage.SetGet | ArbitrageNexus/server/storage.ts:67 | after a set the key reads the new value, every other key reads as before, and keys stay unique |
| MemStorage.Delete | ArbitrageNexus/server/storage.ts:93 | the key is gone, every other entry stays in order, and an absent key changes nothing |
| MemStorage.DeleteGet | ArbitrageNexus/server/storage.ts:93 | after a delete the key reads nothing, every other key reads as before, and keys stay unique |
| MemStorage.EmptyValid | ArbitrageNexus/server/storage.ts:35-42 | the fresh store with every counter at 1 satisfies the store invariant |
| MemStorage.TableInsert | ArbitrageNexus/server/storage.ts:56-67 | the counter is a free key, and storing under it then bumping it keeps the table valid |
| MemStorage.TableReplace | ArbitrageNexus/server/storage.ts:127 | replacing a record under its own id keeps the table valid |
| MemStorage.TableDelete | ArbitrageNexus/server/storage.ts:93 | deleting a key keeps the table valid |
| MemStorage.GetUser | ArbitrageNexus/server/storage.ts:45-47 | a user is found exactly when one is stored under the id, and it is the stored one; in a valid store it carries the requested id, and an id outside the issued range finds nothing |
| MemStorage.GetUserByUsername | ArbitrageNexus/server/storage.ts:49-53 | the earliest-inserted user with the name, or None exactly when no user has it |
| MemStorage.CreateUser | ArbitrageNexus/server/storage.ts:55-69 | the id is the counter, which goes up by one; the input fields are copied; the plan is Free with 100 calls and none used; the new user is found under its id and nothing else changes |
| MemStorage.UserIdsIncrease | ArbitrageNexus/server/storage.ts:56 | each new user gets a larger id than the one before |
| MemStorage.DuplicateUsernameFindsFirst | ArbitrageNexus/server/storage.ts:49-69 | a second user with a taken name is stored, but lookup by name keeps returning the first |
| MemStorage.CreateExchangeApiKey | ArbitrageNexus/server/storage.ts:72-84 | the id comes from the key counter, both times are now, the key is active, and the other tables and counters are untouched |
| MemStorage.GetExchangeApiKeysByUserId | ArbitrageNexus/server/storage.ts:86-90 | exactly the stored keys of the user, in insertion order |
| MemStorage.DeleteExchangeApiKey | ArbitrageNexus/server/storage.ts:92-94 | only that id is removed, an absent id changes nothing, and the invariant is kept |
| MemStorage.CreateUserSettings | ArbitrageNexus/server/storage.ts:97-107 | the id comes from the settings counter, the switches are copied as given, and the other tables and counters are untouched |
| MemStorage.GetUserSettingsByUserId | ArbitrageNexus/server/storage.ts:109-113 | the earliest-inserted settings of the user, or None exactly when the user has none |
| MemStorage.Merge | ArbitrageNexus/server/storage.ts:121-125 | given fields replace stored ones, missing fields keep theirs, the id stays, and the time becomes now |
| MemStorage.MergeIdempotent | ArbitrageNexus/server/storage.ts:121-125 | applying the same patch twice is applying it once |
| MemStorage.MergeEmpty | ArbitrageNexus/server/storage.ts:121-125 | an empty patch only moves the update time |
| MemStorage.UpdateUserSettings | ArbitrageNexus/server/storage.ts:115-129 | a user without settings gets None and nothing changes; otherwise the merge replaces the user's first settings under the same id and nothing else changes |
| Supabase.NeedsRotation | ArbitrageNexus/client/src/lib/supabase.ts:72-78 | due exactly when the rotation date is less than eight whole days ahead (floor of the days left at most 7); an unparsable date is never due |
| Supabase.PastRotationIsDue | ArbitrageNexus/client/src/lib/supabase.ts:74-77 | a rotation date already passed is always due |
| Supabase.RotationDueStaysDue | ArbitrageNexus/client/src/lib/supabase.ts:74-77 | a due key stays due as time moves on |
| Supabase.CheckRateLimit | ArbitrageNexus/client/src/lib/supabase.ts:83-101 | a missing or expired window opens a new one with count 1 and allows; a full window refuses and changes nothing; otherwise the count goes up by one and the call is allowed; other users are untouched |
| Supabase.CallsInsideWindow | ArbitrageNexus/client/src/lib/supabase.ts:95-100 | inside a window that counted c calls, the i-th further call is allowed exactly when c + i is below the limit |
| Supabase.Allowance | ArbitrageNexus/client/src/lib/supabase.ts:87-97 | a window lets through the limit, but never fewer than one call |
| Supabase.BurstAllowsFirstOnly | ArbitrageNexus/client/src/lib/supabase.ts:87-100 | in a burst inside the window its first call opens, exactly the first max(1, limit) calls are allowed |
| Supabase.CountPrefix | ArbitrageNexus/client/src/lib/supabase.ts:87-100 | answers true exactly on a prefix of length k count min(k, length) |
| Supabase.BurstCountAtMostLimit | ArbitrageNexus/client/src/lib/supabase.ts:87-100 | for a positive limit, at most that many calls of one window are allowed |

## Left out

- Rendering, animation, routing, toasts, loading flags and the `setTimeout` delays are left out: they are presentation
  only. The execute run and the network refresh are modelled as the state they produce once their timer fires.
- `BotTrading.ExecuteBot`: edits made during the three-second execute delay are not modelled. In the code the edited
  bot's record is built from the latest state (`prev`, BotTrading.tsx lines 213-220), but the saved copy is rebuilt
  from the bot as it was at the click (lines 223-237). The model uses one bot, `p.current`, for both, so it matches
  the code only when nothing is edited during the delay.
- `Math.random()` draws become parameters. These are the bot's profit increments (two separate draws for the edited
  and the saved copy), the congestion change and the "Issues" coin flip. The clock and generated ids are parameters too.
- Floating-point rounding and `toFixed` display formatting are left out: money is modelled in exact `real` arithmetic.
- The calculator has no input validation. It divides without checking the divisor, and a losing triangular loop
  with slippage on reports a negative fee total (`ProfitCalculator.TriangularFeeNegativeOnLoss`). The model follows
  the code: each divisor is required to be non-zero, and the result of a zero divisor (NaN or Infinity) is not modelled.
- `ProfitCalculator.HandleCalculate`: the form inputs are numbers already. The text-field parsing is not modelled.
- `ProfitCalculator.FormatDuration`: the one-decimal rounding of the shown days and hours is not modelled. The
  contract states the exact quotient.
- The bot type "custom" is left out: it has no default configuration, so its flows cannot be modelled.
- The type-change effect (BotTrading.tsx lines 138-147) is modelled for the load and as `BotTrading.SetActiveType`. The
  "Create New Bot" dialog (lines 408-423), which sets the type and a fresh default bot before the effect runs, is not
  modelled. The effect's new id `bot-<type>-<now>` is the parameter `freshId`.
- `changeFieldValue` for the scalar fields (sliders, switches, name) is not modelled. It writes one field and stamps the
  modification time; only the pair and exchange uses are modelled.
- `NetworkMonitor.RefreshNetworks` starts from the built-in table, as the code does, not from the shown list.
- The display-only comparator sort of the network table (NetworkMonitor.tsx lines 259-265) is left out. Only the sort
  state (`HandleSort`) is modelled.
- `NetworkMonitor.GenerateRecommendations`: the reason text lists the supporting exchanges through `JoinNames`. That
  formatting has no contract of its own.
- `NetworkMonitor.Recommend` states which routes are emitted and that there are at most three. It does not state their
  order, which is the visiting order of the pairs (0,1), (0,2), (1,2). That order is stated by the contract of `NetworkMonitor.VisitPairs`.
- Upper- and lower-casing covers ASCII letters only. JavaScript's `toLowerCase` also folds non-ASCII letters.
- The category mapping in the model is a plain map. The JavaScript object would also answer for inherited keys such as
  `constructor`, which the model does not reproduce.
- The ticker's category toggles are modelled over the five categories. The component stores arbitrary strings, but
  only those five buttons exist.
- The news mapper's fallbacks for missing id, source, url and date fields are left out. Date parsing and `Date.now`
  are left out too. These fields are taken as given, and only the category and breaking flag are derived.
- The news fetch, its error state and the five-minute refetch interval are left out: they are network I/O.
- The scroll-into-view effect of the expanded list is left out: it is DOM behaviour.
- `MemStorage.UpdateUserSettings`: a patch field present with the value `undefined` would overwrite a stored value
  with `undefined`. The model's patch has no such state: None leaves the field alone.
- The mock data method `getMockArbitrageOpportunities` is left out.
- The Drizzle schema's database-side column defaults are left out because the in-memory store never applies them.
- `encryptData`, `rotateApiKey` and every Supabase client call are left out: they are foreign calls (WebCrypto, network).
- `Supabase.NeedsRotation`: the date string's parsing is a parameter (`Option<int>`, None for an invalid date).
- `Supabase.CheckRateLimit`: the module-level map is explicit state passed in and returned. The limit is always an
  argument; the default of 100 for a caller that omits it is not modelled.

## Findings

| source | as written | input that shows it | evidently intended | confidence | as-written member | corrected member |
|---|---|---|---|---|---|---|
| client/src/components/dashboard/NewsTicker.tsx:121-127 (and ArbitrageNexus/client/src/components/dashboard/NewsTicker.tsx:158-164) | toggling a category or typing a search leaves the ticker position unchanged while the filtered list shrinks | two stories (Market, Technology), ticker at position 1, Market toggled on: one story remains, the position still reads index 1, the collapsed ticker reads a missing story and its `.id` access throws | the position is pulled back into range whenever the list shrinks under it | not executed | NewsTicker.ToggleAsWrittenLosesPosition | NewsTicker.Toggle |
| ArbitrageNexus/client/src/pages/BotTrading.tsx:171-177 with the effect at 138-147 | loading a saved bot sets its type as the active type, and when that type changes the effect lays the type's defaults over the loaded bot and gives it a new id | a saved triangular bot "My bot" with a 5000 trade limit, loaded while the direct type is active: it is shown as "Triangular Arbitrage Bot" with a 1500 limit and a new id, and saving it appends a second entry | the loaded bot is edited as saved, and saving it updates its own entry | not executed | BotTrading.LoadOtherTypeForgetsBot | BotTrading.LoadBotKeepingConfig |
