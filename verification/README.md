# A model of the order bridge

The bridge listens to upstream signal sources, picks accounts for every signal, sends orders to the
exchanges, records them, and later settles the records against the exchange's ledger. This project
models the parts where state, interleaving, arithmetic or retries decide whether an order is sent
twice, lost, booked wrongly or credited wrongly, and proves what they promise.

Callers, goroutines, sockets, clocks, random draws and the network are the environment: a run is any
interleaving of critical sections, a reply is any reply, a draw is any draw. Components that change
their fields in place are classes whose methods are proved against a function of the state; the laws
are lemmas about that function. `dafny verify dfyconfig.toml` checks everything.

| modules | what they model |
|---|---|
| `UpstreamProtocol`, `UpstreamProgress`, `WsClient` | `Start`, `Stop` and the reconnect loop of one upstream as a state machine over its critical sections, what never happens in its runs and what always can; the `Conn` object and the `Manager` that reconciles Conns with the configuration |
| `OddsBoard`, `OddsWait` | the TurboFlow odds cache with its close-and-replace update channel; any number of orders waiting for their odds while the feed pushes |
| `OrderRing`, `OrderStore`, `OrderRuns`, `StorePersistence` | the bounded table of order records as a value and as an object; orders, updates and settlement interleaved; the dirty flag, the write outside the lock and crashes |
| `Ledger`, `Settlement`, `SettleVerdicts`, `SettleMoney`, `SettleMatching`, `SettleRuns` | fetching the ledger, one settlement poll, its verdicts by the clock, where its money comes from, when matching bets to records is unambiguous, and many polls over a growing ledger |
| `RoundRobin`, `WeightedChoice`, `SkipEpisodes`, `Fallback`, `PlaceOrder`, `Dispatch` | choosing an account, skipping signals, the send-and-retry loop of one order, the cascade over accounts, and both together |
| `Template`, `NestedTemplate` | filling in an order body by successive replacements, with plain values and with values that contain placeholders |
| `TaskConfig`, `AccountAuth`, `StrategyConfig`, `OrderAmount`, `TimeWindows` | preparing the configuration: ids, tokens, bindings and the orders they size, trading windows |
| `Options`, `Text`, `Periods`, `Division` | optional values, Go's string helpers, contract periods, quotients |

## Where the code and its own words differ

The model follows the code.

- README.md:213 says that the skip counter is reset after 30 minutes without signals. The code
  (internal/signals/processor.go:371) resets it 30 minutes after the first skipped signal of the
  episode. `SkipEpisodes.VerdictsAgreeIff` says exactly which signals the code blocks and the documented
  rule does not, and `BusyAccountIsBlockedAgain` is such a history.
- internal/signals/processor.go:821 says that fallback tries the accounts in config order. The code
  cycles from the position behind the failed account (832-844) and, with few accounts, comes back to
  the failed one: `Fallback.AttemptHitsPrimaryIff`.
- internal/settle/service.go pairs bets and records without an order id, and a won record leaves the
  candidates (internal/orders/store.go:181). Two equal orders inside the match window can therefore be
  cross-credited by a second poll. `SettleMatching.RepollIff` says exactly when a second poll of a whole
  ledger changes records; a ledger of one bet is `RepollOfOneBetIff`, and `HarmlessOnlyAlone` shows that
  looking at bets one by one is not enough. With records and bets far enough apart it never happens
  (`RepollIsIdempotent`).
- internal/wsclient/wsclient.go:198-200 says that one upstream can never have two live loops. That
  holds because the Manager's lock serialises `Start` and `Stop` (`SerialSingleLoop`); for callers
  without it, `UnserialisedLoopsOverlap` is a run with two and `AlwaysTrackedIff` the exact
  condition over a run. That at most one socket is published and open holds in both cases.
- internal/orders/store.go:327-328 falls back to writing in place when a rename fails. A crash inside
  that write can leave an empty history no reader ever saw: `StorePersistence.TornWriteForgets` is such
  a run, and `CrashShowsLastWriteIff` says exactly when a crash shows the last written table.
- internal/order/order.go:506-509 escapes the substituted values for JSON, which keeps braces. A value
  that contains a placeholder is subject to the later passes: `NestedTemplate.BodySubstitutesIff` says
  exactly when that matters for values resolved one level deep, `SettledBodySubstitutes` when it cannot
  matter at any depth, and `SymbolIsResolved` what becomes of an order it happens to.
- internal/config/config.go:235-238 prepares a configuration on every load and update. For account
  tokens that is not idempotent: `AccountAuth.NormalizeAgainIff` says exactly when.
- internal/settle/service.go keeps the payout of a won record but sums all payout rows anew in each poll.
  `SettleRuns.RecordAgreesWithSummaryIff` says when the two show the same money.
- An upstream ack with `ok` set is not enough for success (internal/order/order.go:216-221);
  `PlaceOrder.IsSuccess` follows the code, also where `queued` is false but `duplicate` is true.

## Main results

- Connections, safety: `UpstreamProtocol.OnePublishedOpen`, `SerialSingleLoop`, `AlwaysTrackedIff`,
  `OneFeedPerUpstream`; progress: `UpstreamProgress.RunningCanConnect`, `StoppedCanRestart`,
  `OnlyCurrentDials`, `DialsAreSpaced`; `WsClient.Manager.Sync` and `SyncAgain`.
- Odds: `OddsWait.NoLostWakeup`, `ClosedOnce`, `EveryOrderHasAReason`, `FirstLookWaits`, `WakeupPlaces`;
  `OddsBoard.PushIsReadBack`.
- Order table: `OrderRing.BestIsNearest`, `OrderRuns.WinIsAbsorbing`, `RecordFollowsItsUpdates`,
  `RecordKeepsItsOrder`, `RecordShowsLastAnswer`; `StorePersistence.CleanMeansSaved`,
  `CrashShowsLastWriteIff`.
- Settlement: `Ledger.FetchedWhole`; `Settlement.SettleBet` and `SettleVerdicts.OneBetRecord` by the clock;
  `SettleMoney.NetIsConserved`; `SettleMatching.PollIgnoresLedgerOrder`, `RepollIsIdempotent`,
  `RepollIff`; `SettleRuns.LossStays`, `RecordAgreesWithSummaryIff`.
- Dispatch: `RoundRobin.FairOverEveryWindow`, `WeightedChoice.ExtraWeightIsExcess` and `WeightedIndex`,
  `SkipEpisodes.BlocksFirstOfEpisode` and `VerdictsAgreeIff`, `Fallback.FirstAttemptsDistinct`,
  `PlaceOrder.Client.PlaceOrder`, `ErrorFromReply`, `RecordShowsOrderAndAnswer`,
  `Dispatch.AtMostOneAccepted`, `MayExecuteTwiceIff`, `ExecuteTask`.
- Bodies: `Template.BodyIsOneSubstitution`, `BodyAsSent`, `NestedTemplate.BodySubstitutesIff`.
- Configuration: `TaskConfig.PreparedIds`, `AccountAuth.NormalizeAgainIff`, `StrategyConfig.PrepareStrategies`,
  `OrderAmount.ShareIsWithinBalanceIff`, `TimeWindows.AcceptedRangesNeverFail` and `WindowOfClocks`.

## Model

| member | source | states |
|---|---|---|
| UpstreamProtocol.InvStep | internal/wsclient/wsclient.go:219-356 | every critical section of Start, Stop and the loop keeps the ownership invariant: published and open implies `c.conn`, held by the loop of the current uncancelled context |
| UpstreamProtocol.InvRuns | internal/wsclient/wsclient.go:219-356 | the invariant holds after every interleaving of callers and loops |
| UpstreamProtocol.OnePublishedOpen | internal/wsclient/wsclient.go:321-334 | in every reachable state at most one socket is published and open; it is `conn`, read by the loop whose context is `ctx`, uncancelled, with `running` true |
| UpstreamProtocol.LoopsKeepRunning | internal/wsclient/wsclient.go:266-375 | no step of a loop changes `running` or `ctx`, and the loop of a running Conn is never on its way out |
| UpstreamProtocol.StoppedStaysSilent | internal/wsclient/wsclient.go:321-334 | while no Start commits, a stopped Conn publishes nothing, whatever dials were in flight |
| UpstreamProtocol.StopSilences | internal/wsclient/wsclient.go:252-264 | after Stop no published socket is open and none becomes so until the next Start commits |
| UpstreamProtocol.SerialStep | internal/wsclient/wsclient.go:219-275 | with callers serialised, every step keeps each live loop named by `loopDone` |
| UpstreamProtocol.SerialLoopStep | internal/wsclient/wsclient.go:266-275 | steps of the loops alone also keep `running`, the context and the callers inside Start |
| UpstreamProtocol.SerialInvRuns | internal/wsclient/wsclient.go:219-275 | the serialised invariant holds after every serialised run |
| UpstreamProtocol.SerialSingleLoop | internal/wsclient/wsclient.go:198-200 | with Start and Stop under the Manager's lock at most one loop has not run its cleanup, its done channel is `loopDone`, at most one socket is open at all, and `running` implies an uncancelled context |
| UpstreamProtocol.UnserialisedLoopsOverlap | internal/wsclient/wsclient.go:219-250 | a concrete run without the lock that leaves two live loops |
| UpstreamProtocol.CommitKeepsTrackingIff | internal/wsclient/wsclient.go:235-248 | a commit of Start keeps every live loop tracked if and only if the Conn is already running or `loopDone` is nil |
| UpstreamProtocol.AlwaysTrackedIff | internal/wsclient/wsclient.go:219-275 | over a whole run of any callers every live loop stays tracked if and only if each commit of Start finds the Conn running or `loopDone` nil |
| UpstreamProtocol.FleetStep | internal/wsclient/wsclient.go:71-118 | tracking, dropping and driving the Conns of one id keeps every dropped Conn stopped |
| UpstreamProtocol.FleetInvRuns | internal/wsclient/wsclient.go:56-129 | the same over every run of the Manager |
| UpstreamProtocol.OneFeedPerUpstream | internal/wsclient/wsclient.go:56-129 | however often an id is removed and re-added while old loops wind down, at most one socket of it is published and open, that of the tracked Conn |
| UpstreamProgress.RunningCanPublish | internal/wsclient/wsclient.go:301-334 | a running Conn whose loop is at its top can dial, finish the handshake and publish, in that order; afterwards a socket that was not open before is `conn`, published and open, and the Conn is connected |
| UpstreamProgress.RunningReachesTop | internal/wsclient/wsclient.go:277-356 | wherever its loop stands, steps of that loop alone bring it back to its top |
| UpstreamProgress.RunningCanConnect | internal/wsclient/wsclient.go:266-375 | from every reachable state of a running Conn a run of its own loop alone ends connected |
| UpstreamProgress.OnlyCurrentDials | internal/wsclient/wsclient.go:235-264 | in every reachable state a loop may dial exactly if the Conn is running, the loop is the current one and it is at its top; any other loop at its top leaves |
| UpstreamProgress.CancelledLoopEnds | internal/wsclient/wsclient.go:266-275 | a cancelled loop can close its done channel by its own steps without dialling again |
| UpstreamProgress.StoppedCanRestart | internal/wsclient/wsclient.go:219-250 | after any run a stopped Conn can be started: its old loop can end while the caller waits, and the commit leaves it running under a new run |
| UpstreamProgress.DialsAreSpaced | internal/wsclient/wsclient.go:310-318 | a loop never dials twice without a backoff in between, whatever else runs |
| WsClient.Conn.Stop | internal/wsclient/wsclient.go:252-264 | the new state is the protocol's Stop step |
| WsClient.Conn.Halt | internal/wsclient/wsclient.go:252-264 | Stop under the lock keeps the serialised invariant; afterwards the Conn is not running and has no socket |
| WsClient.Conn.StartCommit | internal/wsclient/wsclient.go:235-249 | the second critical section of Start is the protocol's commit step |
| WsClient.Conn.Publish | internal/wsclient/wsclient.go:325-334 | publishing happens exactly as the protocol's publish check allows, otherwise the socket is to be dropped |
| WsClient.Conn.Clear | internal/wsclient/wsclient.go:351-356 | only the loop's own socket is cleared |
| WsClient.Conn.Cleanup | internal/wsclient/wsclient.go:267-275 | the deferred cleanup gives up `loopDone` and `running` only if they are its own |
| WsClient.Conn.LoopStep | internal/wsclient/wsclient.go:266-375 | any loop step of a lock-protected Conn keeps the serialised invariant and what Start relies on |
| WsClient.Conn.StartRead | internal/wsclient/wsclient.go:223-225 | Start reads `loopDone` and is the only caller inside |
| WsClient.Conn.AwaitPrevious | internal/wsclient/wsclient.go:226-233 | the bounded wait keeps the invariant whatever the loops do; winning it means that the previous loop has ended |
| WsClient.Conn.Start | internal/wsclient/wsclient.go:219-250 | skipped only if a previous loop existed; otherwise the Conn runs, under the context it had if it was running and under a new run, named by `loopDone`, if not |
| WsClient.WantIsLastEntry | internal/wsclient/wsclient.go:63-69 | every configured non-empty id is wanted, with its last entry, and the empty id is not |
| WsClient.WantedIsConfigured | internal/wsclient/wsclient.go:63-69 | nothing else is wanted |
| WsClient.GatherWanted | internal/wsclient/wsclient.go:63-69 | the loop gathers exactly these |
| WsClient.Manager.SyncExisting | internal/wsclient/wsclient.go:82-103 | a tracked Conn takes over the configured URL, key and name and runs only if enabled; a change of one of the three alone ends its run, and an enabled run under the same three goes on |
| WsClient.Manager.SyncNew | internal/wsclient/wsclient.go:104-117 | a new Conn runs if and only if it is enabled and has a URL |
| WsClient.Manager.DropGone | internal/wsclient/wsclient.go:71-78 | exactly the Conns that are no longer configured are stopped and forgotten; the others are untouched |
| WsClient.Manager.UpdateWanted | internal/wsclient/wsclient.go:80-118 | all wanted ids are tracked, old Conns updated and new ones launched |
| WsClient.Manager.Sync | internal/wsclient/wsclient.go:56-119 | afterwards the tracked ids are the configured non-empty ones, every Conn it already tracked is updated in that sense, every new one runs exactly if it is enabled and has a URL, and dropped Conns are stopped |
| WsClient.Manager.StopAll | internal/wsclient/wsclient.go:122-129 | nothing is tracked any more and every formerly tracked Conn is stopped |
| WsClient.Manager.SyncAgain | internal/wsclient/wsclient.go:56-119 | a Sync on the configuration the last one settled keeps the same Conns, keeps every running one running under the same context, and starts an enabled one that has no loop winding down |
| OddsBoard.ReceiveOrdered | internal/tfrealtime/service.go:226-232 | every frame keeps the channel log exact: all channels before the current one closed once and in order, the current one open |
| OddsBoard.Service.NotifyLocked | internal/tfrealtime/service.go:226-232 | the previous channel is closed for the first time and replaced by a fresh one |
| OddsBoard.Service.HandleMessage | internal/tfrealtime/service.go:481-545 | a usable push for a known symbol replaces that symbol's pair, marks the feed connected and notifies; a rejected subscription is recorded as an error; every other frame changes nothing |
| OddsBoard.CurrentDirectionOdds | internal/signals/processor.go:677-701 | the loop reads the rate of the first offer of the wanted duration, zero if there is none |
| OddsBoard.RateOfOffers | internal/tfrealtime/service.go:516-529 | a push is read back as sent: a buy is paid at `brr`, a sell at `arr` |
| OddsBoard.PeriodSecondsAreTraded | internal/signals/processor.go:648-675 | a period lasts as long as its text says, and an unknown one has no duration |
| OddsBoard.PushIsReadBack | internal/tfrealtime/service.go:491-545 | a push of group evt_cfg_5 is what the next ETHUSDT order reads, one of evt_cfg_6 what the next BTCUSDT order reads: the first row of the period, `brr` for a buy and `arr` for a sell, zero for a rate that is no positive number |
| OddsBoard.FramesAct | internal/tfrealtime/service.go:481-545 | what each kind of frame does to pairs, connection, error and revision, in terms of the frame alone |
| OddsBoard.RowsArrive | internal/tfrealtime/service.go:516-529 | every column of every row arrives in the field it belongs to |
| OddsWait.InvStep | internal/signals/processor.go:725-748 | every push and every step of a waiter keeps: blocked on the current channel implies odds below the threshold |
| OddsWait.NoLostWakeup | internal/signals/processor.go:725-748 | in every reachable state a waiter blocked on a still open channel would not be satisfied by the cached odds, and its channel is open exactly if it is the current one |
| OddsWait.ClosedOnce | internal/tfrealtime/service.go:226-232 | over every run each update channel is closed at most once, and all but the current one exactly once |
| OddsWait.OneOrderPerWait | internal/signals/processor.go:703-750 | each wait calls PlaceOrder at most once, and exactly once when it ends other than with its context |
| OddsWait.PlacesExactlyWhen | internal/signals/processor.go:716-748 | a step makes a waiter's order if and only if it is its timeout, a look at odds that reach its threshold, or its first look without a threshold |
| OddsWait.EveryOrderHasAReason | internal/signals/processor.go:703-750 | over every run, each order was made at a step of the run with one of these reasons, in the state of that step |
| OddsWait.FirstLookWaits | internal/signals/processor.go:716-731 | a waiter that has just arrived with a positive threshold above the odds places nothing in its first look and starts to wait |
| OddsWait.QuitsOnlyByContext | internal/signals/processor.go:733-748 | a wait ends without an order if and only if its context ends, and keeps its request and threshold |
| OddsWait.WaitsEndOnce | internal/signals/processor.go:703-750 | a wait that placed its order or ended with its context takes no further step |
| OddsWait.WakeupPlaces | internal/signals/processor.go:725-748 | once the cached odds satisfy a blocked waiter it can wake, and without a further push its next round places the order |
| OrderRing.LastIndex | internal/orders/store.go:153-161 | the position of the newest record with an id, or none |
| OrderRing.BestIsNearest | internal/orders/store.go:173-198 | the scan finds the time-nearest record of the account, amount and window that was not won, the newest of equally near ones, or there is none |
| OrderRing.NearestIsBest | internal/orders/store.go:173-198 | conversely any record with that property is the one the scan finds |
| OrderRing.BeginValid | internal/orders/store.go:122-143 | beginning an order keeps ids ascending and the ring bounded, and the new id was in no record |
| OrderRing.BeginKeepsNewest | internal/orders/store.go:131-141 | beginning an order keeps exactly the newest records, as many as the bound allows, in order |
| OrderRing.ChangesOneRecord | internal/orders/store.go:146-225 | updating and settling leave every record with another id and the ring as they are, and mark a changed table dirty |
| OrderRing.IndexOfId | internal/orders/store.go:153-161 | in a valid ring the search for a record's id finds that record |
| OrderRing.LoadValid | internal/orders/store.go:248-277 | a table saved by a valid store loads into a valid one, unchanged if the bound did not shrink |
| OrderRing.LoadKeepsNewest | internal/orders/store.go:248-277 | loading keeps exactly the newest saved records, and ids continue above all of them |
| OrderStore.Store.constructor | internal/orders/store.go:84-89 | an empty table with a positive bound, 200 by default |
| OrderStore.Store.Load | internal/orders/store.go:248-277 | the newest records up to the bound, ids continuing after the largest; an absent or corrupt file loads nothing |
| OrderStore.Store.Begin | internal/orders/store.go:122-143 | the record is appended as pending under a fresh id and the oldest is evicted beyond the bound |
| OrderStore.Store.Find | internal/orders/store.go:153-161 | the backward scan finds the newest record with the id |
| OrderStore.Store.Update | internal/orders/store.go:146-162 | exactly the record with the id is changed and timed; unknown ids change nothing |
| OrderStore.Store.FindMatch | internal/orders/store.go:167-199 | the nearest open record of the query with its period; on failure no record fits |
| OrderStore.Store.SetResult | internal/orders/store.go:203-225 | exactly the settlement fields of the record with the id are set, with no settlement time while pending |
| OrderStore.Store.List | internal/orders/store.go:228-244 | the newest records first, as many as asked for and there are |
| OrderStore.Store.Snapshot | internal/orders/store.go:295-312 | a copy of the whole table exactly when something changed, and the flag is cleared |
| OrderRuns.StepContinues | internal/orders/store.go:122-225 | after any step each record is new or continues the one with its id, changed only by a step that names the id |
| OrderRuns.InvStep | internal/settle/service.go:215-240 | between the poller's FindMatch and its SetResult the matched record stays open or is evicted, whatever orders do |
| OrderRuns.WinIsAbsorbing | internal/orders/store.go:167-225 | over any interleaving of orders, updates and polls, a won record keeps its result, payout and settlement time |
| OrderRuns.BeginShows | internal/orders/store.go:122-143 | a record begins as pending with the attempts it was created with |
| OrderRuns.RecordFollowsItsUpdates | internal/orders/store.go:146-162 | an unevicted record shows exactly the fold of its own updates, whatever else happens in between |
| OrderRuns.RecordKeepsItsOrder | internal/orders/store.go:122-162 | from its Begin on, over every interleaving, an unevicted record keeps the time of its Begin and the details, account, period and amount it was created with |
| OrderRuns.RecordShowsLastAnswer | internal/orders/store.go:146-162 | field by field, it shows the HTTP status, code, message and error its updates set last, when the last of them was, and how many whole milliseconds after its beginning |
| OrderRuns.FindThenSettle | internal/orders/store.go:167-225 | the poller's verdict is what the nearest fitting record then shows, and no other record changes |
| StorePersistence.InvStep | internal/orders/store.go:295-359 | every step keeps: not dirty implies that the bytes in flight, or else the file, reload to the table in memory |
| StorePersistence.DiskFollowsTable | internal/orders/store.go:122-325 | orders act on the saved table as on the plain one, no step of saving changes a record, and every change marks the table dirty |
| StorePersistence.CleanMeansSaved | internal/orders/store.go:295-325 | whatever writes fail: with nothing dirty and no write in flight a restart shows exactly the table in memory, and while a write is in flight its bytes do |
| StorePersistence.FailureRearms | internal/orders/store.go:314-325 | after a failed write, whatever orders do in the meantime, the next flush that succeeds leaves exactly the table then in memory on disk |
| StorePersistence.StepShowsLastWriteIff | internal/orders/store.go:327-359 | one step takes the last written table from a crash's view if and only if it tears an in-place write or fails one leaving something else |
| StorePersistence.CrashShowsLastWriteIff | internal/orders/store.go:327-359 | over every run, whatever fails: the written history never goes back, and a crash shows the last written table if and only if the latest step that touched the file was a completed write or left a file that reads as that table |
| StorePersistence.CrashShowsLastWrite | internal/orders/store.go:327-359 | in particular while renames work |
| StorePersistence.TornWriteForgets | internal/orders/store.go:355-357 | a run from a saved history: one order, one flush whose rename fails, a crash inside the in-place write; the restart shows an empty history that was never a snapshot |
| StorePersistence.Flusher.WriteAtomic | internal/orders/store.go:327-359 | the file after each way a write can go, and an error exactly when it does not hold the data |
| StorePersistence.Flusher.Flush | internal/orders/store.go:314-325 | a flush on the store object is exactly the steps of its outcome, nothing when clean; it leaves nothing in flight, and afterwards clean means saved |
| StorePersistence.Flusher.Close | internal/orders/store.go:108-119 | one last flush, once |
| Ledger.DedupOnce | internal/settle/service.go:264-287 | however pages overlap, every transaction is kept exactly once |
| Ledger.FetchLedger | internal/settle/service.go:264-287 | pages are read until a short or final one or the fifth; the ledger is their rows with each transaction once, and any bad page fails the fetch |
| Ledger.FetchedWhole | internal/settle/service.go:264-287 | a ledger of at most 500 rows served in full pages is fetched whole, with each transaction once, and of a longer one the first 500 rows; no page is read that the rows seen so far rule out |
| Ledger.FetchServed | internal/settle/service.go:264-287 | the page loop does so against any such server |
| Ledger.PayoutTimeIsLatest | internal/settle/service.go:193-203 | the recorded payout time is the latest one of the balance info |
| Ledger.PayoutsPermuted | internal/settle/service.go:193-203 | payouts and payout times do not depend on the order of the ledger |
| Ledger.BetsOfDistinct | internal/settle/service.go:205-216 | on a ledger with every transaction once the bets are exactly its order debits with a positive amount, each once |
| Settlement.GatherPayouts | internal/settle/service.go:193-203 | the two maps hold the sum and the latest time of the payouts per balance info |
| Periods.LiteralSeconds | internal/settle/service.go:362-391 | the eleven traded periods in seconds |
| Settlement.PeriodDurationIsTraded | internal/settle/service.go:362-391 | a period's duration is what its text says, four hours for any other text |
| Settlement.DecidesRight | internal/settle/service.go:213-235 | the verdict by payout and clock, with the time a bet is given up at as a plain number |
| Settlement.SettleBet | internal/settle/service.go:213-240 | one bet is matched, and decided by its payout and the clock: won if paid; if not, pending up to the bet's time plus its contract's length (four hours if unknown) plus five minutes, and lost after that; the verdict is written to the matched record and to no other |
| Settlement.Count | internal/settle/service.go:242-258 | one verdict is added to the summary if the bet lies in the window |
| Settlement.SettleLedger | internal/settle/service.go:193-262 | the bets of a fetched ledger are credited in order and their shares summed |
| Settlement.PollAccount | internal/settle/service.go:184-262 | a failed fetch leaves every record alone and reports nothing; otherwise exactly the bets of the pages read, each transaction once, are credited in order and summed |
| SettleVerdicts.BetFitsRecord | internal/settle/service.go:215-222 | a bet fits exactly the records of its account that differ by at most a cent and 30 seconds and were not won |
| SettleVerdicts.OneBetRecord | internal/settle/service.go:213-240 | the nearest record the bet fits gets the verdict by payout and clock and no other changes |
| SettleVerdicts.OneBetSummary | internal/settle/service.go:242-258 | a bet placed in the window is counted under its verdict with its stake and payout, any other not at all |
| SettleVerdicts.CountedIsWindow | internal/settle/service.go:242-244 | the summary is about exactly the bets placed at or after the start of the window |
| SettleVerdicts.WinsArePaid | internal/settle/service.go:245-258 | its wins are those of them that the ledger shows paid |
| SettleMoney.SummaryOfLedger | internal/settle/service.go:242-261 | Orders = Wins + Losses + Pending, and stake and net depend on the ledger alone, whatever records the bets were matched to |
| SettleMoney.BetSumVersusLedger | internal/settle/service.go:193-261 | with non-negative payouts the poller's sum is never below the ledger's own balance change |
| SettleMoney.NetIsConserved | internal/settle/service.go:193-261 | with non-negative payouts Net equals the deltas of the counted bets plus those of exactly the payouts paired with them, if and only if no paid balance info is shared by two counted bets |
| SettleMatching.CreditPointwise | internal/settle/service.go:213-240 | with separated records, crediting a bet settles exactly the one record it pairs with |
| SettleMatching.MatchingIsInjective | internal/orders/store.go:167-199 | under separation the pairing of bets and records is one to one |
| SettleMatching.LedgerOrderIrrelevant | internal/settle/service.go:205-261 | under separation neither records nor summary depend on the order of the bets |
| SettleMatching.PollIgnoresLedgerOrder | internal/settle/service.go:184-262 | the whole poll gives the same records and the same summary for a ledger in any other order |
| SettleMatching.RepollIsIdempotent | internal/settle/service.go:184-262 | under separation polling the same ledger again at the same time changes neither records nor summary |
| SettleMatching.RepollOfPaidBetIff | internal/orders/store.go:181-183 | without separation: a second poll of a paid bet changes the records exactly when a second open record fits, and then credits it with the same payout |
| SettleMatching.RepollOfUnpaidBet | internal/orders/store.go:181-183 | a lost or pending bet finds its record again and changes nothing |
| SettleMatching.RepollOfOneBetIff | internal/orders/store.go:181-183 | polling a ledger of one bet twice is harmless if and only if it was not paid or at most one open record fits it |
| SettleMatching.HarmlessOnlyAlone | internal/orders/store.go:181-183 | two bets, each harmless alone, that change records again when polled together twice |
| SettleMatching.PollKeepsRecordsIff | internal/settle/service.go:205-240 | a poll of any bets leaves the records as they are if and only if no paid bet finds an open one and on every record the last bet that finds it has its verdict written |
| SettleMatching.RepollIff | internal/settle/service.go:184-262 | the second poll of a whole ledger changes nothing exactly under that condition, separated or not |
| SettleMatching.RepollMovesABet | internal/orders/store.go:181-183 | a ledger of three rows and two orders whose second poll marks another order |
| SettleRuns.RecordOverPolls | internal/settle/service.go:213-240 | over any number of polls a record stays open until the first poll whose ledger shows its bet paid, and then keeps that poll's payout and time |
| SettleRuns.LostIsLate | internal/settle/service.go:224-235 | over any polls of an unpaid bet its record says lost only when the clock is past the time the bet is given up at, and does say so after a poll that sees the bet then |
| SettleRuns.LossStays | internal/settle/service.go:224-240 | once lost, an unpaid bet's record is never pending again, however many polls follow |
| SettleRuns.RecordAgreesWithSummaryIff | internal/settle/service.go:193-261 | over a growing ledger the credited payout of a record equals what the latest summary counts for its bet if and only if the bet's payouts have not changed since the first poll that saw them |
| RoundRobin.Cursors.NextRoundRobinIndex | internal/signals/processor.go:319-334 | the index lies in the list whatever the cursor holds, and the cursor of this key alone moves on by one |
| RoundRobin.PositionIsResidue | internal/signals/processor.go:319-334 | the index is the mathematical residue of the cursor, also of a negative one |
| RoundRobin.Cursors.PickRoundRobinGroupAccount | internal/signals/processor.go:347-364 | the pick is the account the group's cursor stands for among those of the highest priority |
| RoundRobin.TierIsTop | internal/signals/processor.go:348-360 | the tier is exactly the matched accounts no other one exceeds in priority, and never empty |
| RoundRobin.SortDescending | internal/signals/processor.go:338-342 | sorting gives descending priorities and the same accounts |
| RoundRobin.SortIsStable | internal/signals/processor.go:336-342 | accounts of equal priority keep their configured order |
| RoundRobin.PicksRotate | internal/signals/processor.go:319-334 | the k-th pick of a key is the k-th successor of its first, whatever other keys are picked in between |
| RoundRobin.FairOverEveryWindow | internal/signals/processor.go:319-334 | in every window of w consecutive picks of a key each index occurs floor(w/n) or ceil(w/n) times |
| RoundRobin.TopAccountsShareEvenly | internal/signals/processor.go:344-364 | so does every account of the highest priority of a group |
| RoundRobin.GroupKeysDisjoint | internal/signals/processor.go:310-362 | different groups, and legacy dispatch, use different cursors |
| WeightedChoice.WeightsForTasks | internal/signals/processor.go:96-138 | every account gets its weight: one without a provider or a known balance, else one plus twice the clamped shortfall |
| WeightedChoice.WeightInRange | internal/signals/processor.go:120-121 | weights lie in [1, 3) |
| WeightedChoice.WeightAntitone | internal/signals/processor.go:93-95 | less known balance never weighs less, and below the average strictly more |
| WeightedChoice.ExtraWeightIsExcess | internal/signals/processor.go:107-138 | the weight given away, times the average, is twice the total balance above the average |
| WeightedChoice.OneOwner | internal/signals/processor.go:153-163 | the intervals of the entries are disjoint and each is as long as its weight |
| WeightedChoice.Locate | internal/signals/processor.go:154-163 | the running subtraction stops at the owner of the point, never behind the loop |
| WeightedChoice.WeightedIndex | internal/signals/processor.go:140-164 | the returned index is the owner of the drawn point; without positive weights a uniform draw, without entries -1 |
| SkipEpisodes.SkipCounters.CheckSkip | internal/signals/processor.go:366-386 | the new maps after one signal, and the verdict of the account's own counter |
| SkipEpisodes.StepMovesOne | internal/signals/processor.go:366-386 | one signal moves the counter of its own account in the two maps and no other |
| SkipEpisodes.AccountsAreIndependent | internal/signals/processor.go:366-386 | in any mixed history over the shared maps an account's counter depends on its own signals alone |
| SkipEpisodes.EpisodesAreGreedy | internal/signals/processor.go:371-375 | the reference: an episode ends at the first signal more than half an hour after its own first |
| SkipEpisodes.CounterTracksEpisode | internal/signals/processor.go:366-386 | after each signal the counter is min(N, signals of the episode) and the start time that of the episode |
| SkipEpisodes.BlocksFirstOfEpisode | internal/signals/processor.go:377-385 | a signal is blocked if and only if it is one of the first N of its episode |
| SkipEpisodes.SecondSignal | internal/signals/processor.go:371-375 | with N = 1 a second signal is blocked if and only if it comes more than thirty minutes, to the nanosecond, after the first |
| SkipEpisodes.DocumentedBlocks | README.md:213 | the documented rule blocks a signal if and only if it is among the first N since the last idle half hour |
| SkipEpisodes.VerdictsAgreeIff | README.md:213 | over any history the code blocks whatever the documented rule blocks, and they differ at exactly the signals that are among the first N of their episode but not since the last idle half hour |
| SkipEpisodes.BusyAccountIsBlockedAgain | README.md:213 | signals every 20 minutes with N = 1: the code blocks the third again, the documented rule does not |
| Fallback.ExecuteTaskWithFallback | internal/signals/processor.go:787-819 | at most six calls, all but the last a fallback error; placed exactly when the last succeeded; it gives up on a fallback error only after six |
| Fallback.TryFallbackOrder | internal/signals/processor.go:827-874 | the attempts go to the accounts of the cycle behind the failed one until one succeeds or fails otherwise |
| Fallback.TargetIsCyclic | internal/signals/processor.go:832-844 | attempt k goes to the account k places behind the primary, cyclically |
| Fallback.AttemptHitsPrimaryIff | internal/signals/processor.go:832-844 | attempt k returns to the primary if and only if k is a multiple of the number of accounts |
| Fallback.FirstAttemptsDistinct | internal/signals/processor.go:832-844 | none of the first m - 1 attempts hits the primary, and any two of them hit different accounts |
| PlaceOrder.Client.Handle | internal/order/order.go:718-809 | one reply is recorded and either retried, exactly when retryable, or ends the order with the error of its class |
| PlaceOrder.Client.SendLoop | internal/order/order.go:690-813 | at most eleven sends, all replies before the last retryable, ending as the last reply demands, with exactly the record updates of those sends |
| PlaceOrder.Client.PlaceOrder | internal/order/order.go:646-813 | from the record's creation to its end: nil exactly on an accepted last reply, and exactly the updates of the order's log on its record |
| PlaceOrder.ErrorMeaning | internal/order/order.go:25-37 | nil only for a last reply that is a 2xx answer reporting success (any 2xx answer without a business response, for raw accounts), an exhausted-retries error only after a retryable reply, no error after an accepted one |
| PlaceOrder.ErrorFromReply | internal/order/order.go:718-809 | the error of an order from its last reply as it came: limit code, dead-account codes, answers that want to be asked again, success and refusals, and what is not a 2xx answer |
| PlaceOrder.FinalIsNotRetryable | internal/order/order.go:235-251 | an answer is retryable exactly if it has errno 1021110 or, for HiBT, contains one of the six limit or duplicate texts |
| PlaceOrder.HibtAsksAgain | internal/order/order.go:235-251 | a HiBT answer with one of the six limit or duplicate texts in it, in any case and surroundings, asks for a retry |
| PlaceOrder.ShownLog | internal/order/order.go:661-670 | the updates of an order, folded, show the number of its sends and success or failure, never pending or retrying |
| PlaceOrder.RecordShowsOutcome | internal/order/order.go:646-671 | from the record's creation on, whatever else happens to the table, the unevicted record of a finished order shows its sends as attempts and success exactly if the last reply was accepted |
| PlaceOrder.RecordShowsRetrying | internal/order/order.go:690-790 | while the order waits for its next send the same record says retrying and counts the sends so far |
| PlaceOrder.RecordShowsOrderAndAnswer | internal/order/order.go:646-671 | the same record carries the order's own account, amount, period, time and details, the last business answer as it came, and an error exactly if the order failed |
| Dispatch.AtMostOneAccepted | internal/signals/processor.go:783-874 | over all accounts and retries of one dispatch at most one reply accepts the order: the last reply of the last call, present exactly when that call returns nil |
| Dispatch.MayExecuteTwiceIff | internal/order/order.go:713-716 | from the replies alone: the platform, its refusals being true, may have placed two orders for one dispatch if and only if some call ended with a retry unanswered before its deadline and a later call did not end with a refusal |
| Dispatch.TwoOrdersForOneSignal | internal/order/order.go:713-716 | such a dispatch: a TurboFlow retry that is executed but not answered in time, then a second account that accepts |
| Dispatch.FallbackNeedsAReason | internal/signals/processor.go:775-781 | another account is tried only after the platform reported a limit, a dead account or a retryable refusal for this one |
| Dispatch.CannotTakeMeans | internal/order/order.go:718-809 | conversely a last reply with a limit code, a dead-account code or a wish to be asked again always ends in an error that falls back |
| Dispatch.DispatchSendsAtMost | internal/signals/processor.go:821-874 | one dispatch sends at most 66 requests |
| Dispatch.ExecuteTask | internal/signals/processor.go:777-874 | the fallback loop, with PlaceOrder's errors as outcomes, produces such a cascade over the cyclic accounts; with fewer than six calls the last error is none of the three that fall back, and a reply that says the account cannot take the order is always followed by a call to the next account while five are not used |
| Template.PassFills | internal/order/order.go:510-531 | one ReplaceAll pass over a document fills exactly the placeholders of its name |
| Template.PassesSubstitute | internal/order/order.go:510-531 | successive passes equal one simultaneous substitution, for documents and values without stray opening braces |
| Template.JsonPassesSubstitute | internal/order/order.go:510-531 | the same for a template that opens with a brace of its own |
| Template.EnvPermuted | internal/order/order.go:510-531 | the order of the passes does not matter when the names differ |
| Template.BodyIsOneSubstitution | internal/order/order.go:403-414 | for every built-in body and values without an opening brace the twenty passes, in any order, are one simultaneous substitution |
| Template.EveryHoleIsFilled | internal/order/order.go:403-414 | no placeholder of a built-in body is left over |
| Template.OtherHoles | internal/order/order.go:510-531 | the values of the names that only configured bodies use |
| Template.BodyAsSent | internal/order/order.go:403-531 | the three built-in bodies as they are sent, text by text and value by value |
| Template.SubstituteBody | internal/order/order.go:510-531 | the loop of replacements is the passes in the program's order |
| NestedTemplate.PassesSubstituteIff | internal/order/order.go:510-531 | for values that contain text and any placeholders, resolved one level deep: the passes are the simultaneous substitution if and only if no placeholder a value brings in has its own pass still to come (or that puts the same placeholder) |
| NestedTemplate.SettledPassesSubstitute | internal/order/order.go:510-531 | to any depth, they are if all placeholders a value brings in have had their pass |
| NestedTemplate.BodySubstitutesIff | internal/order/order.go:403-414 | the exact condition for the twenty passes over each built-in body |
| NestedTemplate.SettledBodySubstitutes | internal/order/order.go:403-414 | the sufficient condition for them, to any depth |
| NestedTemplate.SymbolIsReplacedAgain | internal/order/order.go:514-531 | for a Binance order whose symbol has the placeholder of the last pass in it, the passes are not the simultaneous substitution |
| NestedTemplate.SymbolIsResolved | internal/order/order.go:514-531 | what they are instead: the body of the order with that placeholder's value in the symbol |
| TaskConfig.FreshID | internal/config/time_ranges.go:28-37 | the search ends within the number of used ids plus one candidates, at the first free name |
| TaskConfig.PrepareTasks | internal/config/time_ranges.go:16-60 | accounts are prepared in place, ids, names, tokens and ranges, up to the first with unusable ranges, which is reported; otherwise a duplicate is reported exactly if two ids are equal |
| TaskConfig.PreparedIds | internal/config/time_ranges.go:16-60 | afterwards all ids are non-blank, explicit ones unchanged, and all distinct if and only if no two explicit ids are the same text |
| TaskConfig.PreparedFields | internal/config/time_ranges.go:147-156 | an account keeps its name, or is shown under its id without one, and keeps its kind; its ranges and tokens are the normalised ones |
| TaskConfig.GeneratedNeverClashes | internal/config/time_ranges.go:17-37 | a generated id equals no other id |
| TaskConfig.GeneratedIsLeast | internal/config/time_ranges.go:28-37 | a generated id is "task-" and the first number from the account's place on that no other account has |
| TaskConfig.UnnamedAreCounted | internal/config/time_ranges.go:28-37 | accounts without any ids become task-1, task-2 and so on |
| TaskConfig.PreparingAgainChangesNothing | internal/config/time_ranges.go:16-60 | preparing a prepared list keeps every id, name and range, and changes nothing at all if and only if no token came out of a cookie with a leading space |
| AccountAuth.NormalizeAuth | internal/config/config.go:54-90 | the loop over the cookie finds the first part that names the token; Binance accounts keep the two tokens, all others everything |
| AccountAuth.BinanceKeepsTwo | internal/config/config.go:54-56 | at most the two tokens remain, none of them empty |
| AccountAuth.FieldsOfNormalized | internal/config/config.go:54-90 | the csrf token is the trimmed one, the p20t token the account's own or else the cookie's, and the cookie is gone |
| AccountAuth.TokenOfCookie | internal/config/config.go:66-83 | the token is the account's own, or else the first one the pasted cookie names, whatever its other parts are |
| AccountAuth.OthersKeepAll | internal/config/config.go:54-62 | all other accounts keep every field |
| AccountAuth.NormalizeAgainIff | internal/config/config.go:63-83 | normalising again changes nothing exactly under that condition, and twice is always final |
| AccountAuth.SpacedToken | internal/config/config.go:72-78 | every token pasted with a space behind the equals sign needs two rounds |
| StrategyConfig.NormalizeDispatch | internal/config/time_ranges.go:70-80 | the mode is always a known one, kept if known, and "all" only if the operator wrote it |
| StrategyConfig.PrepareAccounts | internal/config/time_ranges.go:120-141 | bindings are accepted if and only if each has an account, a share of 0 to 100 percent and uncrossed, non-negative limits |
| StrategyConfig.PrepareGroups | internal/config/time_ranges.go:108-142 | groups are accepted if and only if their resolved ids are new and their bindings safe |
| StrategyConfig.PrepareStrategies | internal/config/time_ranges.go:85-145 | accepted if and only if keys are non-empty and distinct, group ids distinct over all strategies and bindings safe; each refusal names a reason that holds |
| StrategyConfig.UnnamedGroups | internal/config/time_ranges.go:112-118 | a group without an id is called after its strategy's key and its place, and no two such groups clash |
| StrategyConfig.KeyOfPrepared | internal/config/time_ranges.go:88-118 | a strategy's key is its id, or its name without one; afterwards it has a name, and its groups have known modes and keep their own ids |
| StrategyConfig.PreparingAgainChangesNothing | internal/config/time_ranges.go:82-84 | what was prepared is accepted again and unchanged, so load and every update agree |
| StrategyConfig.PreparedGroupsHaveOwnCursors | internal/config/time_ranges.go:112-118 | in an accepted configuration no two groups share a round-robin cursor |
| OrderAmount.DynamicAmount | internal/signals/processor.go:459-502 | the amount of an order for any binding and any balances |
| OrderAmount.NeverUnsized | internal/signals/processor.go:472-498 | with a share configured an order is never sent with an empty or non-positive size: without a usable balance it has the floor, then the fixed amount, then there is no order |
| OrderAmount.AcceptedBindingSizes | internal/signals/processor.go:487-502 | for an accepted binding, at any balance, the amount lies between the limits that are set, and above the balance only where the floor puts it |
| OrderAmount.ShareIsWithinBalanceIff | internal/config/time_ranges.go:127-132 | a binding without limits is accepted if and only if its orders stay within the balance, whatever the balance |
| OrderAmount.LimitsAreKeptIff | internal/config/time_ranges.go:133-140 | a binding with both limits is accepted if and only if its orders keep to them, whatever the balance |
| TimeWindows.ParseOfFormat | internal/config/time_ranges.go:266-275 | the canonical clock text parses back to the same time |
| TimeWindows.CanonicalKeepsTime | internal/config/time_ranges.go:262-275 | canonical form keeps the parsed time and is idempotent |
| TimeWindows.CanonicalIsTwoDigits | internal/config/time_ranges.go:262-275 | every clock value ends up with two digits for the hour and two for the minute, other text stays |
| TimeWindows.NormalizeTimeRanges | internal/config/time_ranges.go:158-179 | the loop keeps the non-blank ranges in canonical form and order |
| TimeWindows.NormalizeKeeps | internal/config/time_ranges.go:158-179 | range by range: a blank one, up to spaces, is dropped, any other stays in its place in canonical form |
| TimeWindows.NormalizeIsNormal | internal/config/time_ranges.go:158-179 | every range it returns is canonical and not blank |
| TimeWindows.NormalIsFixed | internal/config/time_ranges.go:158-179 | such ranges are left as they are |
| TimeWindows.ValidateTask | internal/config/time_ranges.go:181-206 | accepted if and only if there are at most four ranges, each with two different half-hour times |
| TimeWindows.IsTimeAllowed | internal/config/time_ranges.go:210-236 | the loop answers as the first range that decides |
| TimeWindows.FirstDecides | internal/config/time_ranges.go:210-236 | for any ranges, accepted or not: the first that is unusable or covers the minute decides |
| TimeWindows.InRangeIsOnArc | internal/config/time_ranges.go:255-260 | the comparison, wrapping or not, is membership in the arc on the clock face |
| TimeWindows.AcceptedRangesNeverFail | internal/config/time_ranges.go:208-236 | for accepted ranges the check never fails and allows a minute if and only if there are no ranges or some range's arc contains it |
| TimeWindows.WindowOfClocks | internal/config/time_ranges.go:181-236 | from clock values: one window is accepted exactly for two different half hours and then allows exactly the minutes on its arc |
| TimeWindows.ClockOfText | internal/config/time_ranges.go:262-275 | text to clock and back, digit by digit |
| TimeWindows.OfficeHours | internal/config/time_ranges.go:208-236 | 09:30 to 16:00 allows exactly minutes 570 to 960 |

## Left out

- Sockets, HTTP, TLS clients, headers, request signing, ping tickers and the JSON codec: replies, frames
  and files enter as decoded values, or as undecodable.
- `time.Parse` beyond the 15:04 layout, `sort.SliceStable` (a stable insertion sort stands for it),
  `jsonEscape`, and case folding beyond the letters A to Z.
- Float64: amounts, balances, odds, weights and draws are real numbers. Infinite and not-a-number
  amounts, and the rounding of `formatAmount` and `dynamicAmount`, are not modelled.
- Wall-clock progress: timeouts and the bounded wait of Start are steps that may happen at any time.
- internal/tfrealtime `Start` and `Stop`: its `cancel` happens after the lock is released, so what is
  proved for internal/wsclient does not carry over.
- internal/balance, internal/logs, the rest of internal/config/config.go, internal/wsserver,
  cmd/server and web: easier members that would dilute the model.
- The surroundings of a dispatch: symbol and window filters, dispatch to all accounts at once and the
  random mode; the fallbacks share one signal's matched list.
- `pollOnce`, `windowStart` and the snapshot of the stats: the model starts at one account's poll.
- WsClient.Manager.Sync: other goroutines act on a Conn while Start waits for its previous loop; loops
  of other Conns are covered by the protocol's runs, not inside this method.
- UpstreamProtocol.InvRuns: the loop's back-off times and the URL check are any choice.
- OddsBoard.Service.HandleMessage: the two rates of an offer are kept as parsed numbers instead of as
  text; symbol and pair id, which follow from the frame's group, are not stored twice.
- OddsWait.OneOrderPerWait: an order without a threshold or an odds provider places at once, as the
  immediate check does.
- OrderStore.Store.Update: the function argument is one of the changes `PlaceOrder` makes, as a value;
  records are values in a sequence, so the aliasing of records is not captured.
- SettleMatching.RepollIff: the two polls have the same ledger and time; SettleRuns has growing ledgers and
  any times, for separated orders and a table to which no order is added in between.
- StorePersistence.Flusher.Flush: one flush that no order interrupts; orders during a write are covered by
  the runs of the disk steps.
- StorePersistence.CleanMeansSaved: a record that cannot be marshalled is not modelled; `Close` is the
  last flush.
- PlaceOrder.Client.PlaceOrder: starts where the record is created; the random delay, the refusal of
  unknown periods, bad URLs and malformed bodies before it send nothing and are not modelled, nor is a
  missing recorder.
- Dispatch.MayExecuteTwiceIff: assumes that a platform answering with a limit, a dead account or a
  retryable refusal placed no order for that request.
- NestedTemplate.BodySubstitutesIff: a value with an opening brace that belongs to no placeholder, and
  placeholders that resolve to further placeholders, are not covered.
- PlaceOrder.Client.SendLoop: the error returned when the context ends before any retryable reply cannot
  occur, since only retryable replies lead to a wait; error texts are reduced to their class.
- Template.SubstituteBody: the substituted values are inputs; deriving them (period converters, symbol
  defaults) and the substitutions in URL and headers are not modelled.
- StrategyConfig.PrepareStrategies: on a refusal nothing is said about the part already rewritten.
- TimeWindows.IsTimeAllowed: the description returned beside the answer is the range itself.
