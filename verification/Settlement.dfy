/** One settlement poll of one account: every bet of the ledger gets a verdict, the order record it is
    matched to is updated, and the bets placed since the window's start are summed up. */
module Settlement {
  import opened Options
  import opened Text
  import opened Ledger
  import R = OrderRing
  import S = OrderStore
  import Periods

  const SECOND := 1_000_000_000
  const MINUTE := 60 * SECOND
  const HOUR := 60 * MINUTE
  const MATCH_WINDOW := 30 * SECOND
  const MAX_SETTLE := 4 * HOUR
  const SETTLE_BUFFER := 5 * MINUTE

  function PeriodDuration(period: string): int {
    var p := ToLower(TrimSpace(period));
    if p == "30s" then 30 * SECOND else if p == "45s" then 45 * SECOND
    else if p == "1m" then MINUTE else if p == "3m" then 3 * MINUTE else if p == "5m" then 5 * MINUTE
    else if p == "10m" then 10 * MINUTE else if p == "15m" then 15 * MINUTE else if p == "30m" then 30 * MINUTE
    else if p == "1h" then HOUR else if p == "2h" then 2 * HOUR else if p == "4h" then 4 * HOUR
    else MAX_SETTLE
  }

  function Nanos(millis: int): R.Time { millis * 1_000_000 }

  // The fixed part of a poll: the account, the ledger, the stats window and the clock.
  datatype Poll = Poll(taskId: string, ledger: seq<Entry>, start: R.Time, now: R.Time)

  datatype Verdict = Verdict(result: R.Result, payout: real, settledAt: Option<R.Time>)

  function QueryFor(p: Poll, bet: Entry): R.Query {
    R.Query(p.taskId, -bet.delta, Nanos(bet.time), MATCH_WINDOW)
  }

  // `period` is that of the matched record, if any.
  function Decide(p: Poll, bet: Entry, period: Option<string>): Verdict {
    var paid := PayoutSum(p.ledger, bet.info);
    if paid > 0.0 then Verdict(R.Win, paid, Some(Nanos(PayoutTime(p.ledger, bet.info))))
    else
      var deadline := Nanos(bet.time) + SETTLE_BUFFER +
                      match period case Some(t) => PeriodDuration(t) case None => MAX_SETTLE;
      if p.now > deadline then Verdict(R.Loss, 0.0, Some(deadline)) else Verdict(R.Undecided, 0.0, None)
  }

  // When an unpaid bet is given up: its time, the length of its contract if that is known and four hours
  // if not, and five minutes.
  function LostAfter(bet: Entry, period: Option<string>): R.Time {
    var seconds := if period.Some? && Periods.IsTraded(period.value) then Periods.Seconds(period.value) else 14_400;
    bet.time * 1_000_000 + (seconds + 300) * 1_000_000_000
  }

  lemma PeriodDurationIsTraded(period: string)
    ensures PeriodDuration(period) ==
            1_000_000_000 * if Periods.IsTraded(period) then Periods.Seconds(period) else 14_400
  {
    hide TrimSpace, ToLower;
    if Periods.IsTraded(period) {
      Periods.SecondsOf(Periods.Plain(period), period);
    }
  }

  // The verdict on a bet by what it was paid and by the clock.
  ghost predicate RightVerdict(p: Poll, bet: Entry, period: Option<string>, v: Verdict) {
    && (PayoutSum(p.ledger, bet.info) > 0.0 ==>
          v == Verdict(R.Win, PayoutSum(p.ledger, bet.info), Some(PayoutTime(p.ledger, bet.info) * 1_000_000)))
    && (PayoutSum(p.ledger, bet.info) <= 0.0 && p.now <= LostAfter(bet, period) ==>
          v == Verdict(R.Undecided, 0.0, None))
    && (PayoutSum(p.ledger, bet.info) <= 0.0 && p.now > LostAfter(bet, period) ==>
          v == Verdict(R.Loss, 0.0, Some(LostAfter(bet, period))))
  }

  lemma DecidesRight(p: Poll, bet: Entry, period: Option<string>)
    ensures RightVerdict(p, bet, period, Decide(p, bet, period))
  {
    hide PayoutSum, PayoutTime, PeriodDuration, Periods.Seconds, Periods.IsTraded;
    if period.Some? {
      PeriodDurationIsTraded(period.value);
    }
  }

  function MatchedPeriod(p: Poll, recs: seq<R.Record>, bet: Entry): Option<string> {
    var (_, period, ok) := R.FindMatch(recs, QueryFor(p, bet));
    if ok then Some(period) else None
  }

  // Record and sum of one bet.
  function Credit(p: Poll, s: R.Ring, bet: Entry): R.Ring {
    var (id, period, ok) := R.FindMatch(s.recs, QueryFor(p, bet));
    if !ok then s
    else
      var v := Decide(p, bet, Some(period));
      R.SetResult(s, id, v.result, v.payout, v.settledAt)
  }

  datatype Stat = Stat(orders: int, wins: int, losses: int, pending: int, staked: real, payout: real)

  const ZERO := Stat(0, 0, 0, 0, 0.0, 0.0)

  function Add(a: Stat, b: Stat): Stat {
    Stat(a.orders + b.orders, a.wins + b.wins, a.losses + b.losses, a.pending + b.pending,
         a.staked + b.staked, a.payout + b.payout)
  }

  function Net(s: Stat): real { s.payout - s.staked }

  predicate InWindow(p: Poll, bet: Entry) { Nanos(bet.time) >= p.start }

  function Share(p: Poll, bet: Entry, v: Verdict): Stat {
    if !InWindow(p, bet) then ZERO
    else Stat(1, if v.result == R.Win then 1 else 0, if v.result == R.Loss then 1 else 0,
              if v.result == R.Win || v.result == R.Loss then 0 else 1,
              -bet.delta, if v.result == R.Win then v.payout else 0.0)
  }

  // The store after crediting the bets in order.
  function Credited(p: Poll, s: R.Ring, bets: seq<Entry>): R.Ring {
    if bets == [] then s
    else Credit(p, Credited(p, s, bets[..|bets| - 1]), bets[|bets| - 1])
  }

  function Summed(p: Poll, s: R.Ring, bets: seq<Entry>): Stat {
    if bets == [] then ZERO
    else
      var n := |bets| - 1;
      var before := Credited(p, s, bets[..n]);
      Add(Summed(p, s, bets[..n]), Share(p, bets[n], Decide(p, bets[n], MatchedPeriod(p, before.recs, bets[n]))))
  }

  // The payouts and latest payout times the poller gathers per balance info.
  method GatherPayouts(es: seq<Entry>) returns (payouts: map<string, real>, times: map<string, int>)
    ensures forall i :: (if i in payouts then payouts[i] else 0.0) == PayoutSum(es, i)
    ensures forall i :: (if i in times then times[i] else 0) == PayoutTime(es, i)
  {
    payouts, times := map[], map[];
    for k := 0 to |es|
      invariant forall i :: (if i in payouts then payouts[i] else 0.0) == PayoutSum(es[..k], i)
      invariant forall i :: (if i in times then times[i] else 0) == PayoutTime(es[..k], i)
    {
      var e := es[k];
      assert es[..k + 1][..k] == es[..k];
      if e.kind != Payout {
        continue;
      }
      payouts := payouts[e.info := (if e.info in payouts then payouts[e.info] else 0.0) + e.delta];
      if e.time > if e.info in times then times[e.info] else 0 {
        times := times[e.info := e.time];
      }
    }
    assert es[..|es|] == es;
  }

  // One bet: match it, decide it, and write the verdict to the matched record.
  method SettleBet(store: S.Store, p: Poll, e: Entry, payouts: map<string, real>, times: map<string, int>)
    returns (v: Verdict)
    requires forall i :: (if i in payouts then payouts[i] else 0.0) == PayoutSum(p.ledger, i)
    requires forall i :: (if i in times then times[i] else 0) == PayoutTime(p.ledger, i)
    modifies store
    ensures store.View() == Credit(p, old(store.View()), e)
    ensures v == Decide(p, e, MatchedPeriod(p, old(store.recs), e))
    ensures RightVerdict(p, e, MatchedPeriod(p, old(store.recs), e), v)
  {
    DecidesRight(p, e, MatchedPeriod(p, store.recs, e));
    hide RightVerdict;
    var id, period, matched := store.FindMatch(QueryFor(p, e));
    var result, payout, settledAt := R.Undecided, 0.0, None;
    if e.info in payouts && payouts[e.info] > 0.0 {
      result, payout := R.Win, payouts[e.info];
      settledAt := Some(Nanos(if e.info in times then times[e.info] else 0));
    } else {
      var deadline := Nanos(e.time) + (MAX_SETTLE + SETTLE_BUFFER);
      if matched {
        deadline := Nanos(e.time) + (PeriodDuration(period) + SETTLE_BUFFER);
      }
      if p.now > deadline {
        result, settledAt := R.Loss, Some(deadline);
      }
    }
    if matched {
      store.SetResult(id, result, payout, settledAt);
    }
    v := Verdict(result, payout, settledAt);
  }

  lemma BetsSnoc(es: seq<Entry>, i: nat)
    requires i < |es|
    ensures Bets(es[..i + 1]) == if IsBet(es, i) then Bets(es[..i]) + [es[i]] else Bets(es[..i])
  {
    assert es[..i + 1][..i] == es[..i];
    assert IsBet(es[..i + 1], i) == IsBet(es, i);
  }

  lemma FoldSnoc(p: Poll, s: R.Ring, bets: seq<Entry>, e: Entry)
    ensures Credited(p, s, bets + [e]) == Credit(p, Credited(p, s, bets), e)
    ensures Summed(p, s, bets + [e]) ==
            Add(Summed(p, s, bets), Share(p, e, Decide(p, e, MatchedPeriod(p, Credited(p, s, bets).recs, e))))
  {
    assert (bets + [e])[..|bets|] == bets;
  }

  // The summary is scoped to bets placed since the window's start.
  method Count(p: Poll, stat: Stat, e: Entry, v: Verdict) returns (stat': Stat)
    ensures stat' == Add(stat, Share(p, e, v))
  {
    stat' := stat;
    if Nanos(e.time) < p.start {
      return;
    }
    stat' := stat'.(orders := stat.orders + 1, staked := stat.staked + -e.delta);
    match v.result {
      case Win => stat' := stat'.(wins := stat.wins + 1, payout := stat.payout + v.payout);
      case Loss => stat' := stat'.(losses := stat.losses + 1);
      case _ => stat' := stat'.(pending := stat.pending + 1);
    }
  }

  lemma DebitedStep(es: seq<Entry>, i: nat, seen: set<int>)
    requires i < |es| && forall t :: t in seen <==> Debited(es, i, t)
    ensures var seen' := if es[i].kind == OrderDebit then seen + {es[i].tranId} else seen;
            forall t :: t in seen' <==> Debited(es, i + 1, t)
  {
  }

  // The bets of a fetched ledger, one after the other.
  method SettleLedger(store: S.Store, p: Poll) returns (stat: Stat)
    modifies store
    ensures store.View() == Credited(p, old(store.View()), Bets(p.ledger))
    ensures stat == Summed(p, old(store.View()), Bets(p.ledger))
  {
    hide R.FindMatch, R.SetResult, PayoutSum, PayoutTime, Decide, Share, Debited;
    var es := p.ledger;
    var payouts, times := GatherPayouts(es);
    stat := ZERO;
    var seen: set<int> := {};
    ghost var start := store.View();
    assert forall t :: !Debited(es, 0, t) by { NothingDebited(es); }
    for i := 0 to |es|
      invariant forall t :: t in seen <==> Debited(es, i, t)
      invariant store.View() == Credited(p, start, Bets(es[..i]))
      invariant stat == Summed(p, start, Bets(es[..i]))
    {
      var e := es[i];
      BetsSnoc(es, i);
      DebitedStep(es, i, seen);
      if e.kind != OrderDebit || e.tranId in seen {
        continue;
      }
      seen := seen + {e.tranId};
      if -e.delta <= 0.0 {
        continue;
      }
      FoldSnoc(p, start, Bets(es[..i]), e);
      var v := SettleBet(store, p, e, payouts, times);
      stat := Count(p, stat, e, v);
    }
    assert es[..|es|] == es;
  }

  /** Fetches the ledger and settles its bets. A failed fetch leaves every record alone and reports no
      summary; otherwise each transaction of the pages read counts once. */
  method PollAccount(store: S.Store, taskId: string, pages: nat -> Reply, start: R.Time, now: R.Time)
    returns (stat: Option<Stat>, used: nat)
    modifies store
    ensures 1 <= used <= MAX_PAGES
    ensures forall n | 1 <= n < used :: Good(pages(n)) && !IsLast(pages(n), n)
    ensures if Good(pages(used)) then used == MAX_PAGES || IsLast(pages(used), used) else stat == None
    ensures stat == None ==> !Good(pages(used)) && store.View() == old(store.View())
    ensures stat.Some? ==>
      var p := Poll(taskId, Dedup(Rows(pages, used)), start, now);
      && DistinctIds(p.ledger)
      && store.View() == Credited(p, old(store.View()), Bets(p.ledger))
      && stat.value == Summed(p, old(store.View()), Bets(p.ledger))
  {
    hide Dedup, Rows, Credited, Summed, Bets;
    var ledger;
    ledger, used := FetchLedger(pages);
    if ledger == None {
      return None, used;
    }
    DedupOnce(Rows(pages, used));
    var sum := SettleLedger(store, Poll(taskId, ledger.value, start, now));
    return Some(sum), used;
  }

  lemma NothingDebited(es: seq<Entry>)
    ensures forall t :: !Debited(es, 0, t)
  {
  }
}
