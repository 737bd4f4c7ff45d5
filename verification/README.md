# Portfolio tracker: a verified model

This project models the parts of the portfolio API where a mistake would be silent: a wrong total in
a chart, a digest sent twice, a snapshot of the wrong address shown as current, a wallet rejected or
duplicated. Each module follows one component of the repository.

| module | component |
|---|---|
| `Exchange` | reading and validating stored exchange snapshots |
| `History` | the portfolio history: queries, seeds and the event sweep |
| `Canonical` | the three ways a duplicated EVM address is counted once |
| `Digest` | delivery of the Telegram daily digest by competing, crashing runs |
| `AssetsCache`, `LiveLookup` | the live asset lookup: cache, single flight, four slots |
| `PriceCache` | the double-checked CoinGecko price cache under threads |
| `Base58` | acceptance of Solana public keys |
| `Wallets` | create, update, delete and restore, with the partial unique indexes |
| `Revision` | which snapshot a wallet's current value is read from, one request at a time |
| `Overlap` | the same when requests, runs and collections overlap |
| `Health` | price quality, freshness, and merging an exchange snapshot into them |
| `Rebalancing` | targets, accumulated totals, suggestions, labels and their order |
| `Collections`, `Text` | what the others share |

Conventions. Amounts of money, percentages and monotonic clock readings are exact reals, other times
are integers; each stored row carries the primary key its query orders by. A query is a filter, sort
or ranking over a sequence of rows. A Python dictionary or set is iterated in an arbitrary order
(`AnyOf`). A protocol is a state machine whose steps are the points at which another run, request or
thread can interfere: a commit, a row lock, a Bot API call, an event-loop step, or one read or write
of a shared variable. A method that the source runs in place is a method here, proved against a
specification function, and the promises are theorems about that function. What a specification
function itself says is written out, without naming it, by the lemma called its meaning.

The central results:

- the seeded, windowed, tie-broken sweep yields exactly one point per distinct event time, each the
  sum of every account's latest admissible balance (`History.AllHistory`), and narrowing the window
  only drops points (`History.WindowCut`);
- digest calls never exceed recorded attempts, which never exceed three, in every interleaving and
  with any crashes (`Digest.CallsWithinAttempts`); when outcomes commit within the lease, at most one
  run is in flight, `sent` never changes again, and successful sends number at most one plus the
  crashes after a successful call (`Digest.OneRunInFlight`, `Digest.SuccessesBounded`); for both
  promises the lease is the exact bound on how late an outcome may commit (`Digest.SentIsFinalIff`,
  `Digest.SendsOnceIff`); the server's retry hint is honoured to the second, up to a day
  (`Digest.HintIsHonoured`);
- the asset cache is a recency list: hits return the last stored payload, and unexpired payloads are
  missed only after 256 other keys were touched (`AssetsCache.UnexpiredMissNeedsCrowd`);
- in every interleaving of live lookups a waiting request is told exactly what the step that ended its task
  decided (`LiveLookup.EndDecidesAnswer`), and how old a served payload can be is bounded
  (`LiveLookup.AnswerAge`);
- Base58 acceptance is key equality: encoding and decoding are inverse in both directions, and accepted
  lengths are exactly bounded by 32 and 44;
- from the table the migrations leave, in every interleaving of wallet requests, the indexes and the network
  rules hold, and no two active wallets of one owner and kind stand for the same normalised address, and no
  two Solana wallets for the same key (`Wallets.AfterTheMigrations`);
- when requests do not overlap, the snapshot selected for a wallet shows its current address
  (`Revision.SelectedShowsCurrentAddress`); when they do, it does as long as every commit is harmless to
  the runs already started, and a commit is safe if and only if it is harmless (`Overlap.SelectedIsCurrent`,
  `Overlap.FinishSafeIff`); two overlapping updates can break it (`Revision.OverlappingUpdatesMislead`);
- the balance query and the migration choose the same EVM wallets, and the history loop chooses them too
  exactly when it sees no repeat the index does not see (`Canonical.QueryMatchesMigration`,
  `Canonical.LoopMatchesQueryIff`); when exactly a group's history, which filters and then runs the loop, and
  its balance views, which run the query and then filter, list the same wallets is `Canonical.GroupViewsAgreeIff`:
  on tables from before the unique index they can differ (`Canonical.GroupViewsDiffer`), under the index, with
  nothing but spaces around stored addresses, they cannot (`Canonical.UniqueNeedsNoDropping`);
- the incremental health merge equals rebuilding the record from the combined data
  (`Health.DataHealth.MergeExchange`);
- rebalancing suggestions cancel exactly, and within half a cent per item once rounded; labels are
  right from a total of fifty cents up, and for no positive total below (`Rebalancing.LabelMeaning`,
  `Rebalancing.LabelBoundIsSharp`).

## Model

| member | source | states |
|---|---|---|
| `Exchange.StoredValuation` | app/services/exchange_portfolio.py:132-144 | a stored valuation is wholly absent or wholly present and equal to amount times price; anything else is malformed |
| `Exchange.SchemaMeaning` | app/services/exchange_portfolio.py:33-61 | a snapshot fits the schema exactly when ids are positive, it is a successful one of the one provider, and each of at most 500 balances has a symbol of capitals and digits, amounts of the right sign and, where given, a positive price, a value that is not negative and the known source |
| `Exchange.ConsistentMeaning` | app/services/exchange_portfolio.py:120-129 | consistent for a user exactly when it is that user's, did not end before it began, names no symbol twice, and every total is free plus locked |
| `Exchange.FailureMeaning` | app/services/exchange_portfolio.py:153-178 | which failure stands for a missing token, a timeout, a request error, a 404, any other code, and a 200 answer that is refused |
| `Exchange.MarketPriceMeaning` | app/services/exchange_portfolio.py:23-30 | exactly six symbols have a market price, each under its own coin identifier, and only a positive one counts |
| `Exchange.FetchExchangePortfolio` | app/services/exchange_portfolio.py:147-223 | success exactly for a configured 200 answer that fits the schema, is consistent and has no malformed valuation, and otherwise the status of its failure; on success one position per balance, in order, at its stored price or else the positive market price, and worth amount times price |
| `Exchange.ReadSnapshot` | app/services/exchange_portfolio.py:263-285 | one snapshot is accepted exactly when consistent, not earlier than its predecessor and free of malformed valuations; it yields a point exactly when fully valued |
| `Exchange.ReadSnapshots` | app/services/exchange_portfolio.py:260-287 | the whole answer is accepted or refused, and yields the fully valued snapshots' worth in order |
| `Exchange.FetchExchangeHistory` | app/services/exchange_portfolio.py:226-287 | success exactly for an acceptable answer, otherwise the status of its failure, and points that never go back in time |
| `Exchange.ValuedPointsBounded` | app/services/exchange_portfolio.py:266-285 | skipping incompletely valued snapshots keeps the points non-decreasing and bounded by the last snapshot |
| `Exchange.ValuedPointsMeaning` | app/services/exchange_portfolio.py:271-285 | one more snapshot adds a point at its completion, worth the sum of its values, exactly when every balance of it is valued |
| `History.HistorySources` | app/routers/portfolio.py:63-80 | on-chain and manual sums over the balances by wallet type, whatever order the dictionary iterates in |
| `History.AdmissibleMeaning` | app/routers/portfolio.py:774-824 | on the stored rows: admissible is a snapshot with status success of a wallet in scope, at its own finish, else its run's finish, else its run's creation; a legacy row of a wallet in scope strictly before every such snapshot of it; or an exchange point; and nothing else |
| `History.FirstNewIsEarliest` | app/routers/portfolio.py:795-809 | a wallet's first-new time is the time of one of its new rows, and no new row of it is earlier |
| `History.RankOne` | app/routers/portfolio.py:844-879 | per account a row of its own that no other row of it exceeds by time, then id |
| `History.HistoryRowsOrdered` | app/routers/portfolio.py:779-825 | after every sort and filter the rows are exactly the admissible ones of the window, by time and wallet, ties by id |
| `History.EventsOrdered` | app/routers/portfolio.py:909-918 | the event list is exactly the admissible rows and exchange points of the window, in the order the sweep relies on |
| `History.PostAllIsLedgerAt` | app/routers/portfolio.py:921-934 | posting the events up to any time onto the balances from before the window gives every account's latest admissible balance at that time |
| `History.SeedLegacy` | app/routers/portfolio.py:880-896 | the loop over legacy rows, newest first, finds each wallet's latest countable legacy row and uses it exactly where no new row seeds the wallet |
| `History.SeedIsLatest` | app/routers/portfolio.py:844-896 | ranked new row, else best legacy row, else nothing, is the latest admissible balance before the window |
| `History.SeedBalances` | app/routers/portfolio.py:842-900 | the wallet seeds are the specification's balances just before the window |
| `History.SeedCex` | app/routers/portfolio.py:901-908 | the reverse search finds the latest exchange value before the window |
| `History.ApplyInstant` | app/routers/portfolio.py:924-930 | the inner loop applies all and only the events of one instant |
| `History.Sweep` | app/routers/portfolio.py:920-946 | one point per distinct event time, strictly increasing, each settled after exactly the events up to its time |
| `History.SweptIsHistory` | app/routers/portfolio.py:842-946 | a sweep from the right seed over the window's events is the history of all admissible rows |
| `History.AggregatedHistory` | app/routers/portfolio.py:754-946 | group and all scope return the history of the admissible rows, which `AdmissibleMeaning`, `TimesMeaning` and `PointMeaning` read off the stored snapshots: one point per distinct time in the window, each total the sum over wallets of the latest admissible balance plus the latest exchange value |
| `History.AllHistory` | app/routers/portfolio.py:754-768 | the same for any exchange answer, whose own validation supplies the order the sweep relies on |
| `History.TimesMeaning` | app/routers/portfolio.py:920-946 | points are at exactly the distinct times of rows from the start of the window on, its first instant included, in strictly increasing order |
| `History.PointMeaning` | app/routers/portfolio.py:921-946 | each point counts exactly the wallets with a row by then, each with its latest balance, ties to the higher id; the manual side is the wallets of type manual, the on-chain side the others, and the total is all of them plus the exchange value |
| `History.WalletHistory` | app/routers/portfolio.py:826-839 | wallet scope returns every row as a point with that row's balance, in time order, and the last point of each instant is the aggregated one |
| `History.HistoryIsUnique` | app/routers/portfolio.py:920-946 | stored rows and window determine the history: no other list of points meets the specification |
| `History.WindowCut` | app/routers/portfolio.py:842-917 | over the same rows, the points for a later start are exactly the points for an earlier start from that time on |
| `Canonical.CanonicalWallets` | app/routers/portfolio.py:736-748 | the loop keeps, in order, every wallet except the EVM ones whose address equals that of a lower id once blanks are stripped and letter case is ignored |
| `Canonical.LoopMatchesQueryIff` | app/services/portfolio_health.py:91-117 | for any stored addresses the network rules allow, the loop and the min-id query list the same wallets exactly when every repeat the loop sees after stripping blanks is one the index sees after trimming spaces |
| `Canonical.OlderMeansRepeats` | app/routers/portfolio.py:740-746 | whatever the index would call a duplicate the loop drops |
| `Canonical.QueryMatchesMigration` | alembic/versions/g7a8b9c0d1e2_add_snapshot_service_tables.py:24-42 | for any stored addresses the network rules allow, the query's EVM wallets are exactly the rows the migration would leave active |
| `Canonical.ReachableAgree` | app/routers/portfolio.py:736-748 | in every state the handlers reach from stored addresses that trim to valid ones, loop and query both list all of an owner's active wallets |
| `Canonical.GroupViewsAgreeIff` | app/services/portfolio_health.py:91-117 | a group's history and its balance views list the same wallets exactly when each EVM member repeats an earlier member just in case it repeats an earlier active row at all |
| `Canonical.UniqueNeedsNoDropping` | app/db/models/wallet.py:32-40 | under the unique index, with at most spaces around addresses, neither the loop nor the query drops a member of any group |
| `Canonical.GroupViewsDiffer` | app/services/portfolio_health.py:91-117 | a table without the index, two rows of one owner and address, on which a group's history lists a wallet that its balance views leave out |
| `Digest.CallsWithinAttempts` | app/services/telegram_daily_balance.py:301-349 | with any crashes and no timing hypothesis, calls are at most the committed attempts, which are at most three and never fall |
| `Digest.StepKeepsBudget` | app/services/telegram_daily_balance.py:321-349 | every step keeps calls made plus claims not yet called within the attempts of the row |
| `Digest.StepKeepsLocks` | app/services/telegram_daily_balance.py:293-300 | row locks stay exclusive, and a run that read a claimable row still holds a claimable row |
| `Digest.ClaimsPassTheGuards` | app/services/telegram_daily_balance.py:301-314 | a claim that changes anything passes all guards at its commit: not sent, attempts left, no later retry time recorded |
| `Digest.SelectMeaning` | app/services/telegram_daily_balance.py:293-314 | a row is held for a claim exactly when it was not sent, no later retry time is recorded, fewer than three attempts were made, and a pending attempt is at least ten minutes old |
| `Digest.ClaimMeaning` | app/services/telegram_daily_balance.py:321-349 | a claim adds one attempt, stamps the run's start, leaves the row pending and without a retry time, and touches no other row; an insert that meets a row changes nothing |
| `Digest.OutcomeMeaning` | app/services/telegram_daily_balance.py:371-394 | a committed outcome leaves sent exactly after a delivery and failed otherwise; a hint becomes exactly the run's start plus the hint or a day, whichever is less; the opt-in goes exactly on a 403; all else stays |
| `Digest.HintIsHonoured` | app/services/telegram_daily_balance.py:304 | in every run, while the retry time that a hint left stands, no claim by a run that began before it changes the row |
| `Digest.HintHoldsOffTurns` | app/services/telegram_daily_balance.py:374-377 | after a turn that failed with a hint no turn that starts before the hint has passed calls or changes the row |
| `Digest.RetryAfterBounded` | app/services/telegram_daily_balance.py:371-377 | a recorded retry time changes only to nothing, or to at most a day past the failing run's start |
| `Digest.StepKeepsLease` | app/services/telegram_daily_balance.py:307-314 | while outcomes commit within the lease, every in-flight run owns a pending row with its own stamp, alone |
| `Digest.SentIsAbsorbing` | app/services/telegram_daily_balance.py:302-303 | under that hypothesis no step changes a sent row |
| `Digest.OneRunInFlight` | app/services/telegram_daily_balance.py:293-394 | over every such run: at most one leased run per account and date, and sent stays sent with nobody in flight |
| `Digest.SuccessesBounded` | app/services/telegram_daily_balance.py:360-394 | successful calls are at most one plus the crashes after a successful call (plus undecided runs past their lease) |
| `Digest.SentIsFinalIff` | app/services/telegram_daily_balance.py:28 | for every bound: sent rows stay as they are in all runs whose outcomes commit within the bound, if and only if the bound is at most the lease |
| `Digest.SendsOnceIff` | app/services/telegram_daily_balance.py:28 | for every bound: whenever nobody is in flight successful calls are at most one plus the crashes after one, in all such runs, if and only if the bound is at most the lease |
| `Digest.LateOutcomeUndoesSent` | app/services/telegram_daily_balance.py:274-394 | for any bound past the lease a reachable run, every outcome within the bound, in which one committed exactly a lease after its start turns a sent row into a claimable one |
| `Digest.SentTwice` | app/services/telegram_daily_balance.py:274-394 | that run goes on to a second delivery with no crash |
| `Digest.Outbox.Turn` | app/services/telegram_daily_balance.py:293-394 | one account's turn: called exactly when the row is open; then one more attempt, sent or failed as the call ended, and a retry time of exactly the start plus the hint or a day, whichever is less; the opt-in removed exactly on 403 |
| `Digest.Outbox.SendDue` | app/services/telegram_daily_balance.py:288-395 | the loop calls the open due keys in order, counts successes and failures exactly, leaves each called row as its own turn does, opts out exactly the accounts that answered 403, and changes no other row |
| `Digest.LoneRunIsOneTurn` | app/services/telegram_daily_balance.py:293-394 | the interleaved protocol, run alone, does what one turn of the loop does, with one call |
| `AssetsCache.Cache.GetCachedAssets` | app/routes.py:55-65 | a lookup pops the entry and puts it back as newest exactly when it is fresh |
| `AssetsCache.Cache.CacheAssets` | app/routes.py:68-73 | a store makes the key newest and keeps the newest 256 entries |
| `AssetsCache.Cache.ClearAssetsCache` | app/routes.py:76-78 | nothing is left |
| `AssetsCache.SizeAndDistinct` | app/routes.py:68-73 | after any calls there are at most 256 entries, one per key |
| `AssetsCache.LastStoredWasStored` | app/routes.py:68-71 | the reference value of a key was really stored, and nothing stored or cleared it since |
| `AssetsCache.TraceTracked` | app/routes.py:55-78 | after any calls a key's last stored entry is in place with only touched keys behind it, or was pushed out by 256 of them |
| `AssetsCache.HitIsLastStore` | app/routes.py:55-65 | a hit returns the payload last stored under the key, less than 30 seconds old |
| `AssetsCache.FreshStoreIsLast` | app/routes.py:62-63 | with clock samples in order, no earlier lookup has dropped a payload that is still fresh |
| `AssetsCache.UnexpiredMissNeedsCrowd` | app/routes.py:55-73 | with clock samples in order, a payload stored less than 30 seconds ago, not overwritten or cleared, is missed only after at least 256 distinct other keys were touched since its own last touch |
| `LiveLookup.StepKeepsSlots` | app/routes.py:141-161 | free and held slots add up to four after every step, including a timeout racing a grant |
| `LiveLookup.StepKeepsSingleFlight` | app/routes.py:164-182 | every unfinished task owns its key's in-flight entry, and every entry belongs to a task whose callback is still to run |
| `LiveLookup.CallbackRemovesOnlyItsOwn` | app/routes.py:81-90 | a done-callback removes its own task's entry if still there and no other |
| `LiveLookup.StepKeepsGenuine` | app/routes.py:152-161 | cached, finished and answered payloads were all returned by upstream lookups for their address |
| `LiveLookup.LookupsAreBounded` | app/routes.py:141-182 | in every run: one unfinished task per loop and key, slots conserved, at most four upstream lookups |
| `LiveLookup.AnswersAreGenuine` | app/routes.py:141-182 | whatever a request is served was returned earlier by a lookup for the very address it asked for |
| `LiveLookup.RequestMeaning` | app/routes.py:164-182 | a request is answered at once, with the cached payload, exactly when the cache hits; otherwise it waits on the task in flight for its key or on a new one |
| `LiveLookup.RecheckMeaning` | app/routes.py:152-156 | the second look at the cache ends the task exactly when it hits, and otherwise the upstream lookup starts |
| `LiveLookup.EndMeaning` | app/routes.py:141-161 | a task ends with the payload returned upstream, which becomes the cache's newest entry, or the payload its recheck hit, or busy on a timeout, or failed on an error |
| `LiveLookup.EndDecidesAnswer` | app/routes.py:141-182 | in every run a waiting request is told what the step that ended its task decided, however many steps later: the returned payload, the one the recheck hit, busy, or failed |
| `LiveLookup.AnsweredAfterEnd` | app/routes.py:182 | in every run some earlier step ended the task that an answered request waited on |
| `LiveLookup.AnswerAge` | app/routes.py:141-182 | a served payload was returned after the request arrived, or less than 30 seconds before a clock sample taken since, or the request joined a task between its end and its done-callback, whose payload was no older than that at its end and has since been lost by the cache |
| `LiveLookup.MissedIsLost` | app/routes.py:55-78 | a payload the cache held is missed only after a clear, after a lookup found the address's last entry expired, or after 256 other keys were touched |
| `LiveLookup.CacheIsReplay` | app/routes.py:55-78 | the cache of every state is what the cache calls of the steps so far leave |
| `PriceCache.StepKeepsInv` | app/connectors/price/coingecko.py:35-54 | every thread step keeps the stamp no later than the cached price's fetch, and the lock's holder unique |
| `PriceCache.UnlockedMeaning` | app/connectors/price/coingecko.py:64-73 | without the lock a price is returned exactly when it is present and was stamped less than 300 seconds before the caller's sample |
| `PriceCache.LockedMeaning` | app/connectors/price/coingecko.py:75-90 | under the lock the same test decides between the cached price and a fetch; a fetched price is stored and stamped with the sample; a failed fetch falls back to the old price if there is one, raises if not, and leaves price and stamp alone |
| `PriceCache.StampNeverFlatters` | app/connectors/price/coingecko.py:42-54 | in every interleaving the recorded stamp never exceeds the fetch time of the cached price, and fetches never overlap |
| `PriceCache.CheckedPricesAreFresh` | app/connectors/price/coingecko.py:38-45 | a price returned after a freshness check, with or without the lock, was fetched less than 300 seconds before the caller's sample |
| `PriceCache.ServedStaleIff` | app/connectors/price/coingecko.py:68-73 | in the per-coin read order, a price returned without the lock is past its own stamp's 300 seconds exactly when the cache had already expired, for the caller's sample, when the price was read |
| `PriceCache.UnrefreshedReadIsFresh` | app/connectors/price/coingecko.py:68-73 | in either read order a lock-free read is fresh when no refresh fell between reading price and stamp |
| `PriceCache.PriceFirstCanBeStale` | app/connectors/price/coingecko.py:68-73 | the per-coin read order can return a 300-second-old price as fresh, by a reachable run |
| `Base58.ReadNumber` | app/schemas/wallet.py:36-41 | the loop computes the positional value of the digits, or nothing exactly when a character is outside the alphabet |
| `Base58.AlphabetMeaning` | app/schemas/wallet.py:14-15 | each of the 58 characters of the alphabet has its place in it as its digit |
| `Base58.DigitMeaning` | app/schemas/wallet.py:14-15 | no other character is a digit, and a digit is the place of its character |
| `Base58.ShortestBytes` | app/schemas/wallet.py:43-47 | the requested byte length is exactly that of the shortest big-endian form |
| `Base58.NormalizeSolana` | app/schemas/wallet.py:29-51 | blank text passes, and other text is accepted, stripped, exactly when it decodes to 32 bytes |
| `Base58.EncodeDecode` | app/schemas/wallet.py:36-49 | the encoder undoes the decoder on every string of the alphabet, leading ones matching leading zero bytes |
| `Base58.DecodeEncode` | app/schemas/wallet.py:36-49 | the decoder undoes the encoder on every byte string |
| `Base58.KeyEquality` | app/routers/wallets.py:163-164 | two accepted addresses decode to the same key exactly when they are the same string |
| `Base58.EveryKeyHasAnAddress` | app/schemas/wallet.py:43-51 | every 32-byte key has an accepted address |
| `Base58.DigitsSuffice` | app/schemas/wallet.py:89 | up to 32 bytes never need more than twelve extra base-58 digits |
| `Base58.AcceptedLength` | app/schemas/wallet.py:43-51 | every accepted address has 32 to 44 characters, so the schema limit of 44 rejects no valid key |
| `Base58.LengthBoundsAreSharp` | app/schemas/wallet.py:89 | both ends are reached, by the all-zero and the all-0xff key |
| `Wallets.Store.EnsureUnique` | app/routers/wallets.py:137-171 | for an address with nothing but spaces around it, taken exactly when the unique index would refuse an active row with it |
| `Wallets.NetworkMeaning` | app/schemas/wallet.py:62-81 | the rules kind by kind: EVM needs an address and one of six chains, Solana an address and its chain, manual the manual chain and no address |
| `Wallets.SchemaMeaning` | app/schemas/wallet.py:84-94 | after stripping, a chain has 1 to 32 characters and an address at most 44 |
| `Wallets.EvmMeaning` | app/schemas/wallet.py:18-26 | an EVM address is accepted exactly when it is blank, or 0x or 0X and forty hexadecimal digits, and is stored with a small x and its digits as they came |
| `Wallets.ConflictMeaning` | app/db/models/wallet.py:32-50 | the indexes refuse two rows exactly when both are active on-chain rows of one owner and kind with the same address once spaces are trimmed and, on EVM, letter case is ignored |
| `Wallets.Store.PlanUpdate` | app/routers/wallets.py:341-396 | a prepared patch stamps the address exactly when its normalised key changes, and a 409 means that another active wallet of the owner stands for the wanted address |
| `Wallets.Store.CreateWallet` | app/routers/wallets.py:176-229 | on 201 the one new row is active, the caller's, of the wanted kind, on the stripped lower-case chain, with the normalised address and the current stamp; otherwise nothing changes; 422 exactly when the schema, the address or the network rules refuse; 409, where stored addresses trim to valid ones, exactly when an active wallet of the owner and kind has the address; the rollback when the index refuses is included |
| `Wallets.Store.UpdateWallet` | app/routers/wallets.py:335-408 | on 200 each supplied field has its new value and each omitted one its old, in that row alone, restamped exactly when its key changes; any other status changes nothing; 404 and 422 exactly for a row that is not the caller's and a request the schema or rules refuse; a 409 means that another active wallet of the owner stands for the wanted address |
| `Wallets.Store.DeleteWallet` | app/routers/wallets.py:412-426 | 200 exactly for the caller's wallet, which is then inactive and otherwise as before; 404 changes nothing |
| `Wallets.Store.RestoreWallet` | app/routers/wallets.py:430-461 | 200 leaves the wallet active and otherwise as before; 404 exactly when it is not the caller's; with nothing but spaces around the address, 409 exactly when it was inactive and another row would clash with it; neither changes anything |
| `Wallets.DecisionOk` | app/routers/wallets.py:341-396 | what passes a handler's checks keeps the network rules, and any address it writes trims to a valid one, whenever it commits |
| `Wallets.StepKeepsInv` | app/routers/wallets.py:137-461 | every check or commit of any request, in any interleaving, keeps the indexes and the network rules, and keeps stored addresses trimming to valid ones if they do |
| `Wallets.EveryRunKeepsInv` | app/routers/wallets.py:137-461 | the same for whole runs of interleaved requests |
| `Wallets.UniqueMeansDistinct` | app/db/models/wallet.py:32-50 | where stored addresses trim to valid ones, the indexes keep normalised addresses distinct, and on Solana the decoded keys |
| `Wallets.NoTwoWalletsShareAKey` | app/routers/wallets.py:137-461 | in every state of every interleaving from such a table no two active wallets of one owner and kind share a normalised address, and no two Solana wallets a 32-byte key |
| `Wallets.CheckMatchesIndex` | app/db/models/wallet.py:32-50 | for an address with nothing but spaces around it the handler's check says taken exactly when the index would refuse the row |
| `Wallets.SequentialNeverConflicts` | app/routers/wallets.py:185-225 | a request that runs alone on a table whose addresses trim to valid ones, and passes its check, is never refused by the index |
| `Wallets.OwnAddressIsFree` | app/routers/wallets.py:383-391 | an update that leaves the address of an active wallet alone passes exactly when no other row takes it, and with nothing but spaces around the address none does |
| `Wallets.BothChecksPass` | app/routers/wallets.py:430-461 | two restores of one address both pass their checks; the index stops the second, and without it the table would hold a duplicate |
| `Wallets.RestoreUndoesDelete` | app/routers/wallets.py:412-461 | deleting then restoring gives back the same table exactly when no other row takes the address, and with nothing but spaces around it none does |
| `Wallets.KeepOldestCleans` | alembic/versions/g7a8b9c0d1e2_add_snapshot_service_tables.py:24-51 | with the EVM step and the like Solana step of a later revision taken at once, the table satisfies both indexes, keeps the rules, changes nothing when already unique, and keeps the oldest row of every class |
| `Wallets.AfterTheMigrations` | alembic/versions/i9c0d1e2f3g4_add_solana_wallet_uniqueness.py:23-50 | in every interleaving from that table the indexes and the network rules hold, and where addresses trimmed to valid ones before, keys stay distinct for ever |
| `Revision.RankedLatest` | app/services/wallet_view.py:94-125 | the row of rank one is a success or partial success of the wallet from a run no older than the stamp, and every other such row is from a run that started earlier, or at the same time with a lower id; none only if there is no such row |
| `Revision.LimitOneLatest` | app/services/wallet_view.py:395-410 | the ordered query with limit one chooses the same snapshot, with the same meaning |
| `Revision.NewestMeaning` | app/services/wallet_view.py:94-125 | the snapshot that every statement below calls chosen is that row, in the same words |
| `Revision.StampedIffMoved` | app/routers/wallets.py:358-396 | a write restamps an address exactly when its normalised key changes |
| `Revision.StepKeepsInv` | app/routers/wallets.py:345-395 | every write, run start and collection keeps each readable snapshot of the current revision on the current address |
| `Revision.SelectedShowsCurrentAddress` | app/services/wallet_view.py:94-125 | when requests do not overlap, in every reachable state the chosen snapshot was collected for the wallet's current normalised address |
| `Revision.SameInstantMisleads` | app/services/wallet_view.py:119 | a run created at the very instant of the change would be chosen although it shows the old address |
| `Revision.OverlappingUpdatesMislead` | app/routers/wallets.py:345-396 | two overlapping updates, one moving and one only recasing the address, can leave a stamp that selects a snapshot of another address |
| `Overlap.HarmlessIff` | app/routers/wallets.py:392-398 | a committed patch keeps every snapshot the started runs may have stored, or may yet store of what they captured, faithful if and only if no run is as new as the stamp it leaves, unless the address key stays and that run is as new as the stamp it found |
| `Overlap.FreshStampIff` | app/routers/wallets.py:392-398 | with a stamp later than every run, that is: a patch with an address and no stamp carries the key the row has at the commit |
| `Overlap.UndisturbedIsHarmless` | app/routers/wallets.py:357-398 | a commit is harmless when since its check nobody else wrote the wallet's address or stamp and no run started |
| `Overlap.EventKeepsFaithful` | app/routers/wallets.py:335-461 | every check, harmless commit, run start, capture of an address and collection keeps selectable snapshots on the current address |
| `Overlap.SelectedIsCurrent` | app/services/wallet_view.py:94-125 | however requests, runs and collections interleave, if every commit is harmless when it happens the chosen snapshot shows the current address in every state |
| `Overlap.FinishSafeIff` | app/routers/wallets.py:392-398 | a commit is safe for whatever the runs so far may have stored or captured if and only if it is harmless |
| `Health.QualityMeaning` | app/services/portfolio_health.py:142-170 | what each quality state says about the non-zero holdings themselves, in both directions |
| `Health.CountMeaning` | app/services/portfolio_health.py:145-152 | one more observation adds to the total exactly when its amount is not zero, and to the priced ones exactly when it also has a price |
| `Health.SourcesMeaning` | app/services/portfolio_health.py:150-167 | the listed sources are exactly those of the non-zero holdings, each once, in the fixed order |
| `Health.SourceNames` | app/services/portfolio_health.py:47-58 | five names stand for their sources, and any other name, or none, for the unknown one |
| `Health.FreshnessMeaning` | app/services/portfolio_health.py:120-139 | fresh up to the first threshold, aging up to the second, stale after it, unknown without a timestamp, and fresh for a future one |
| `Health.FreshnessOfEarliest` | app/services/portfolio_health.py:120-139 | the freshness of the earlier timestamp is the worse of the known freshnesses |
| `Health.CascadeMeaning` | app/services/portfolio_health.py:304-313 | issues and lacking prices come first, then a refresh under way, then missing wallets, then age |
| `Health.DataHealth.constructor` | app/services/portfolio_health.py:182-313 | the record built from scratch: oldest timestamp, quality of the observations, and the state cascade over them |
| `Health.MergeQuality` | app/routers/portfolio.py:433-486 | merging exchange assets gives the counts, ordered sources and state of the concatenated observations |
| `Health.CombinedData` | app/routers/portfolio.py:453-464 | relevant observations, priced count and sources of the concatenation split into the two parts |
| `Health.ExchangeSources` | app/routers/portfolio.py:455-462 | the exchange's sources are those of its priced assets plus unknown exactly when one has no price |
| `Health.CascadeMerge` | app/routers/portfolio.py:488-495 | the merge's shorter cascade gives the state of the full cascade on the combined data |
| `Health.DataHealth.MergeExchange` | app/routers/portfolio.py:410-504 | after a successful snapshot the record is the one built from scratch on the combined data; other statuses leave the rest alone |
| `Health.ReadAndMerge` | app/routers/portfolio.py:410-504 | for any exchange answer, whose validation supplies positive amounts and priced-exactly-when-sourced: status, timestamp and positions are those of the answer, and on success the record is the one built from scratch on the combined data |
| `Rebalancing.Accumulate` | app/routers/portfolio.py:226-342 | per-key sums, each key named by its first asset, and a total equal both to the sum of the dictionary and of the assets |
| `Rebalancing.CollectItems` | app/routers/portfolio.py:173-205 | exactly one item per key of the union, whatever order the key set is iterated in |
| `Rebalancing.BuildRebalancing` | app/routers/portfolio.py:147-211 | the five statuses in the code's order, and a sorted list with one item per key when there is something to balance |
| `Rebalancing.ListOrderMeaning` | app/routers/portfolio.py:206 | suggestions of greater size come first, and among equal ones the earlier key |
| `Rebalancing.StringLeMeaning` | app/routers/portfolio.py:206 | one key comes no later than another exactly when it is a prefix of it or has the smaller character where they first differ |
| `Rebalancing.ItemMeaning` | app/routers/portfolio.py:176-205 | an item is named by the holdings, else by the target, else by its key; its share times the total is a hundred times what is held; its suggestion is the exact one to the nearest cent |
| `Rebalancing.ListIsUnique` | app/routers/portfolio.py:173-206 | totals and targets alone determine the list |
| `Rebalancing.SameContentsSameList` | app/routers/portfolio.py:206 | the sort key is strict between items of different keys, so contents fix the order |
| `Rebalancing.DistinctKeysSum` | app/schemas/portfolio.py:74-84 | with unique keys the targets by key add up to the validated sum |
| `Rebalancing.ByKeyMeaning` | app/routers/portfolio.py:173 | with unique keys every target is found under its own key |
| `Rebalancing.ItemSchemaMeaning` | app/schemas/portfolio.py:37-62 | a validated target has a key of letters, digits and four marks, bounded lengths, and a percentage in (0, 100] that is a whole number of hundredths |
| `Rebalancing.DistributionMeaning` | app/schemas/portfolio.py:69-84 | a distribution is valid exactly when its at most 50 items are, no key occurs twice or is the synthetic one, and a non-empty one adds up to 100 |
| `Rebalancing.Conservation` | app/routers/portfolio.py:173-205 | for validated targets and a total equal to the assets, deviations sum to zero over the list, and the rounded suggestions of n items to within n half-cents of zero |
| `Rebalancing.ExactSuggestionsCancel` | app/routers/portfolio.py:183-184 | the suggestions before rounding sum to exactly zero |
| `Rebalancing.RoundingDrift` | app/routers/portfolio.py:183-185 | half-even rounding to cents moves a sum of n suggestions by at most n half-cents |
| `Rebalancing.HalfEvenMeaning` | app/routers/portfolio.py:183-185 | rounding goes to the nearest whole number and, between two equally near, to the even one |
| `Rebalancing.LabelMeaning` | app/routers/portfolio.py:181-191 | an item is labelled increase exactly when its shortfall exceeds the tolerance and shortfall in points times the total exceeds 0.5; an underweight item is labelled reduce exactly when its shortfall exceeds the tolerance and that product does not |
| `Rebalancing.LabelsAreRight` | app/routers/portfolio.py:186-191 | from a total of 0.50 up, a label beyond tolerance is increase exactly when the share is below target |
| `Rebalancing.LabelBoundIsSharp` | app/routers/portfolio.py:183-191 | for every positive total below 0.50 there are valid targets and holdings whose underweight asset is labelled reduce |
| `Text.StripMeaning` | app/schemas/wallet.py:21 | stripping cuts only blanks from the two ends, and leaves none there |
| `Text.TrimMeaning` | app/db/models/wallet.py:35 | the database's trim cuts only spaces from the two ends, and leaves none there |

## Left out

- Database sessions: identity map, expiry after rollback and the isolation of uncommitted reads; every query reads the latest committed rows, and every commit is one atomic step guarded by a row lock or a unique index.
- HTTP: requests to the exchange service, CoinGecko, the snapshot service, chain nodes and the Bot API are arbitrary results; the window that the exchange service itself applies to its answer is not modelled.
- Decimal's 28-digit context and the rounded percentages and shares that are only displayed; of all rounding, only the half-even rounding of suggestions to cents is modelled.
- Stored rows from before the handlers' checks: runs start from rows that obey the network rules and, once the migrations have run, the indexes; the statements about keys also need stored addresses with nothing but spaces around a valid address, because the indexes trim only spaces.
- The two migrations that introduce the indexes are applied as one step; nothing is stated about requests between them.
- Unicode: stripping and lower-casing act on ASCII text.
- Time zones: which accounts are due, and for which local date, is an input of `Digest`; the digest's text and totals are not modelled.
- The repository's own notes (README.md line 384) say that a 400 disables notifications as well as a 403; the code disables on 403 only (app/services/telegram_daily_balance.py line 378), and the model follows the code.
- Cancellation of a lookup task at loop shutdown, the order in which the semaphore wakes waiters, and the length of the queue timeout: any queued or just-granted lookup may time out at any moment.
- Groups, labels and notes of wallets, the activation metric and the per-owner advisory lock taken by create; the proofs do not need that lock.
- Revision.Next: check, stamp and commit of a request are one instant there, and every step has a clock reading of its own; `Overlap` drops the first assumption.
- PriceCache.UnrefreshedReadIsFresh: gives one direction only, because a read that straddles a refresh may still be fresh; `ServedStaleIff` gives the exact condition, for the price's own stamp.
- Chain issues and retryable runs of the health record are a count; balance sources (latest snapshot, legacy, manual, none) and the per-wallet asset lists of wallet views are inputs.
- The allocation list with its five visible assets and remainder, the 24-hour change, manual balance upserts and scope validators: each adds only easy members.
- Authentication, Telegram init-data signatures, metrics, audit and changelog scripts.
