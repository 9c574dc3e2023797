/** Many polls over a ledger that keeps growing: what an order record ends up showing, and when that is
    what the latest summary says. */
module SettleRuns {
  import opened Options
  import opened Ledger
  import opened Settlement
  import opened SettleMatching
  import R = OrderRing

  // The store after the polls, in order.
  function AfterPolls(polls: seq<Poll>, s: R.Ring): R.Ring {
    if polls == [] then s
    else
      var p := polls[|polls| - 1];
      Credited(p, AfterPolls(polls[..|polls| - 1], s), Bets(p.ledger))
  }

  // Polls of one account whose bets are far enough apart.
  ghost predicate Clear(polls: seq<Poll>, taskId: string) {
    forall n | 0 <= n < |polls| :: polls[n].taskId == taskId && BetsApart(Bets(polls[n].ledger))
  }

  // No poll loses a bet the last one shows: the ledger only grows.
  ghost predicate Growing(polls: seq<Poll>) {
    forall n, b | 0 <= n < |polls| && b in Bets(polls[n].ledger) :: b in Bets(polls[|polls| - 1].ledger)
  }

  predicate SeesPaid(p: Poll, bet: Entry) { bet in Bets(p.ledger) && PayoutSum(p.ledger, bet.info) > 0.0 }

  // The first poll whose ledger shows the bet with a payout, or -1.
  function FirstPaid(polls: seq<Poll>, bet: Entry): (n: int)
    ensures -1 <= n < |polls|
    ensures n >= 0 ==> SeesPaid(polls[n], bet)
    ensures forall m | 0 <= m < (if n < 0 then |polls| else n) :: !SeesPaid(polls[m], bet)
  {
    if polls == [] then -1
    else
      var last := |polls| - 1;
      var n := FirstPaid(polls[..last], bet);
      if n >= 0 then n else if SeesPaid(polls[last], bet) then last else -1
  }

  lemma {:induction false} RingAfterPolls(polls: seq<Poll>, s: R.Ring, taskId: string)
    requires Clear(polls, taskId) && R.IdsSorted(s) && RecordsApart(taskId, s.recs)
    ensures var t := AfterPolls(polls, s); SameOrders(s, t) && R.IdsSorted(t) && RecordsApart(taskId, t.recs)
  {
    hide BetsApart, RecordsApart, Credited;
    if polls != [] {
      var n := |polls| - 1;
      assert forall m | 0 <= m < n :: polls[..n][m] == polls[m];
      RingAfterPolls(polls[..n], s, taskId);
      CreditedPointwise(polls[n], AfterPolls(polls[..n], s), Bets(polls[n].ledger));
    }
  }

  // In every poll the record pairs with this bet or with none.
  ghost predicate Only(polls: seq<Poll>, r: R.Record, bet: Entry) {
    forall n, k | 0 <= n < |polls| && 0 <= k < |Bets(polls[n].ledger)|
                  && Pairs(polls[n], r, Bets(polls[n].ledger)[k]) ::
      Bets(polls[n].ledger)[k] == bet
  }

  // What the record shows: still open, or won with what the first paid poll took for the payout.
  ghost predicate ShowsFirst(polls: seq<Poll>, r: R.Record, bet: Entry) {
    var n := FirstPaid(polls, bet);
    if n < 0 then R.Open(r)
    else
      && r.result == R.Win && r.payout == PayoutSum(polls[n].ledger, bet.info)
      && r.settledAt == Some(Nanos(PayoutTime(polls[n].ledger, bet.info)))
  }

  // One poll of one record, given what it pairs with.
  lemma PollOfRecord(p: Poll, r: R.Record, bet: Entry)
    requires BetsApart(Bets(p.ledger)) && Pairs(p, r, bet)
    requires forall k | 0 <= k < |Bets(p.ledger)| && Pairs(p, r, Bets(p.ledger)[k]) :: Bets(p.ledger)[k] == bet
    ensures AfterAll(p, r, Bets(p.ledger)) == if bet in Bets(p.ledger) then After(p, r, bet) else r
  {
    hide Bets, BetsApart, Pairs, After;
    var bets := Bets(p.ledger);
    if bet in bets {
      var k :| 0 <= k < |bets| && bets[k] == bet;
      Paired(p, r, bets, k);
    } else {
      Unpaired(p, r, bets);
    }
  }

  lemma VerdictOnOpen(p: Poll, r: R.Record, bet: Entry)
    requires Pairs(p, r, bet) && R.Open(r)
    ensures var t := After(p, r, bet);
            if PayoutSum(p.ledger, bet.info) > 0.0
            then t.result == R.Win && t.payout == PayoutSum(p.ledger, bet.info)
                 && t.settledAt == Some(Nanos(PayoutTime(p.ledger, bet.info)))
            else R.Open(t)
  {
  }

  lemma PairsByOrder(p: Poll, q: Poll, r: R.Record, t: R.Record, bet: Entry)
    requires p.taskId == q.taskId && t == r.(result := t.result, payout := t.payout, settledAt := t.settledAt)
    ensures Pairs(p, r, bet) == Pairs(q, t, bet)
  {
  }

  lemma {:induction false} RecordOverPolls(polls: seq<Poll>, s: R.Ring, taskId: string, i: nat, bet: Entry, q: Poll)
    requires Clear(polls, taskId) && R.IdsSorted(s) && RecordsApart(taskId, s.recs) && q.taskId == taskId
    requires i < |s.recs| && R.Open(s.recs[i]) && Pairs(q, s.recs[i], bet) && Only(polls, s.recs[i], bet)
    ensures i < |AfterPolls(polls, s).recs| && ShowsFirst(polls, AfterPolls(polls, s).recs[i], bet)
  {
    hide BetsApart, RecordsApart, Credited, Pairs, After, R.Open, PayoutSum, PayoutTime, Bets, SameOrders;
    if polls != [] {
      var n := |polls| - 1;
      var p := polls[n];
      assert forall m | 0 <= m < n :: polls[..n][m] == polls[m];
      RecordOverPolls(polls[..n], s, taskId, i, bet, q);
      RingAfterPolls(polls[..n], s, taskId);
      var u := AfterPolls(polls[..n], s);
      CreditedPointwise(p, u, Bets(p.ledger));
      OrderKept(s, u, i);
      forall k | 0 <= k < |Bets(p.ledger)| && Pairs(p, u.recs[i], Bets(p.ledger)[k])
        ensures Bets(p.ledger)[k] == bet
      {
        PairsByOrder(p, p, s.recs[i], u.recs[i], Bets(p.ledger)[k]);
      }
      PairsByOrder(q, p, s.recs[i], u.recs[i], bet);
      PollOfRecord(p, u.recs[i], bet);
      LengthKept(u, Credited(p, u, Bets(p.ledger)));
      if R.Open(u.recs[i]) {
        VerdictOnOpen(p, u.recs[i], bet);
        OpenIsNotWon(u.recs[i]);
      } else {
        ClosedStays(p, u.recs[i], bet);
      }
    }
  }

  lemma OrderKept(s: R.Ring, u: R.Ring, i: nat)
    requires SameOrders(s, u) && i < |s.recs|
    ensures i < |u.recs|
    ensures var t := u.recs[i]; t == s.recs[i].(result := t.result, payout := t.payout, settledAt := t.settledAt)
  {
  }

  lemma LengthKept(s: R.Ring, u: R.Ring)
    requires SameOrders(s, u)
    ensures |u.recs| == |s.recs|
  {
  }

  lemma OpenIsNotWon(r: R.Record)
    requires R.Open(r)
    ensures r.result != R.Win
  {
  }

  lemma ClosedStays(p: Poll, r: R.Record, bet: Entry)
    requires !R.Open(r)
    ensures After(p, r, bet) == r
  {
  }

  lemma OnlyThisBet(polls: seq<Poll>, taskId: string, r: R.Record, bet: Entry)
    requires Clear(polls, taskId) && Growing(polls) && polls != []
    requires bet in Bets(polls[|polls| - 1].ledger) && Pairs(polls[|polls| - 1], r, bet)
    ensures Only(polls, r, bet)
  {
    hide BetsApart, Pairs, Bets;
    var q := polls[|polls| - 1];
    var last := Bets(q.ledger);
    var l :| 0 <= l < |last| && last[l] == bet;
    forall n, k | 0 <= n < |polls| && 0 <= k < |Bets(polls[n].ledger)| && Pairs(polls[n], r, Bets(polls[n].ledger)[k])
      ensures Bets(polls[n].ledger)[k] == bet
    {
      var b := Bets(polls[n].ledger)[k];
      assert b in Bets(polls[n].ledger);
      assert b in last;
      var m :| 0 <= m < |last| && last[m] == b;
      PairsByOrder(polls[n], q, r, r, b);
      OneBetPerRecord(q, r, last, l, m);
    }
  }

  // Unpaid in every poll so far, and the clock does not go back.
  ghost predicate UnpaidSoFar(polls: seq<Poll>, bet: Entry) {
    && (forall n | 0 <= n < |polls| :: PayoutSum(polls[n].ledger, bet.info) <= 0.0)
    && (forall m, n | 0 <= m <= n < |polls| :: polls[m].now <= polls[n].now)
  }

  lemma UnpaidOnOpen(p: Poll, r: R.Record, bet: Entry)
    requires Pairs(p, r, bet) && R.Open(r) && PayoutSum(p.ledger, bet.info) <= 0.0
    ensures R.Open(After(p, r, bet))
    ensures After(p, r, bet).result == if p.now > LostAfter(bet, Some(r.period)) then R.Loss else R.Undecided
  {
    DecidesRight(p, bet, Some(r.period));
    hide Decide, PayoutSum, LostAfter;
  }

  // As long as its bet is unpaid, a record says lost only when the clock is past the time its bet is
  // given up at.
  lemma {:induction false} LostIsLate(polls: seq<Poll>, s: R.Ring, taskId: string, i: nat, bet: Entry, q: Poll)
    requires Clear(polls, taskId) && R.IdsSorted(s) && RecordsApart(taskId, s.recs) && q.taskId == taskId
    requires i < |s.recs| && s.recs[i].result == R.Unset && Pairs(q, s.recs[i], bet) && Only(polls, s.recs[i], bet)
    requires UnpaidSoFar(polls, bet)
    ensures i < |AfterPolls(polls, s).recs| && R.Open(AfterPolls(polls, s).recs[i])
    ensures AfterPolls(polls, s).recs[i].result == R.Loss ==>
              polls != [] && polls[|polls| - 1].now > LostAfter(bet, Some(s.recs[i].period))
    ensures polls != [] && bet in Bets(polls[|polls| - 1].ledger) ==>
              AfterPolls(polls, s).recs[i].result ==
              if polls[|polls| - 1].now > LostAfter(bet, Some(s.recs[i].period)) then R.Loss else R.Undecided
    ensures polls != [] && bet !in Bets(polls[|polls| - 1].ledger) ==>
              var before := AfterPolls(polls[..|polls| - 1], s);
              i < |before.recs| && AfterPolls(polls, s).recs[i].result == before.recs[i].result
  {
    hide BetsApart, RecordsApart, Credited, Pairs, After, PayoutSum, PayoutTime, Bets, SameOrders, LostAfter;
    if polls != [] {
      var n := |polls| - 1;
      var p := polls[n];
      assert forall m | 0 <= m < n :: polls[..n][m] == polls[m];
      LostIsLate(polls[..n], s, taskId, i, bet, q);
      RingAfterPolls(polls[..n], s, taskId);
      var u := AfterPolls(polls[..n], s);
      CreditedPointwise(p, u, Bets(p.ledger));
      OrderKept(s, u, i);
      forall k | 0 <= k < |Bets(p.ledger)| && Pairs(p, u.recs[i], Bets(p.ledger)[k])
        ensures Bets(p.ledger)[k] == bet
      {
        PairsByOrder(p, p, s.recs[i], u.recs[i], Bets(p.ledger)[k]);
      }
      PairsByOrder(q, p, s.recs[i], u.recs[i], bet);
      PollOfRecord(p, u.recs[i], bet);
      LengthKept(u, Credited(p, u, Bets(p.ledger)));
      UnpaidOnOpen(p, u.recs[i], bet);
    }
  }

  // Once lost, never pending again while the bet is unpaid, however many polls follow.
  lemma {:induction false} LossStays(polls: seq<Poll>, m: nat, s: R.Ring, taskId: string, i: nat, bet: Entry, q: Poll)
    requires Clear(polls, taskId) && R.IdsSorted(s) && RecordsApart(taskId, s.recs) && q.taskId == taskId
    requires i < |s.recs| && s.recs[i].result == R.Unset && Pairs(q, s.recs[i], bet) && Only(polls, s.recs[i], bet)
    requires UnpaidSoFar(polls, bet) && m <= |polls|
    requires i < |AfterPolls(polls[..m], s).recs| && AfterPolls(polls[..m], s).recs[i].result == R.Loss
    ensures i < |AfterPolls(polls, s).recs| && AfterPolls(polls, s).recs[i].result == R.Loss
  {
    hide BetsApart, RecordsApart, Pairs, AfterPolls, PayoutSum, Bets, LostAfter, R.Open;
    LostIsLate(polls, s, taskId, i, bet, q);
    if m < |polls| {
      var n := |polls| - 1;
      assert polls[..n][..m] == polls[..m];
      LossStays(polls[..n], m, s, taskId, i, bet, q);
      LostIsLate(polls[..n], s, taskId, i, bet, q);
      assert n > 0 ==> polls[n - 1].now <= polls[n].now;
    } else {
      assert polls[..m] == polls;
    }
  }

  // What a record counts for.
  function CreditedWith(r: R.Record): real { if r.result == R.Win then r.payout else 0.0 }

  // After any run of polls over a growing ledger, the record of a bet is credited with what the first
  // poll to see a payout summed up for it, while the summary keeps adding. The two agree if and only
  // if the payouts of the bet have not changed since that first poll.
  lemma RecordAgreesWithSummaryIff(polls: seq<Poll>, s: R.Ring, taskId: string, i: nat, bet: Entry)
    requires Clear(polls, taskId) && Growing(polls) && polls != []
    requires R.IdsSorted(s) && RecordsApart(taskId, s.recs) && i < |s.recs| && R.Open(s.recs[i])
    requires bet in Bets(polls[|polls| - 1].ledger) && Pairs(polls[|polls| - 1], s.recs[i], bet)
    ensures i < |AfterPolls(polls, s).recs| && ShowsFirst(polls, AfterPolls(polls, s).recs[i], bet)
    ensures var last := polls[|polls| - 1].ledger;
            var n := FirstPaid(polls, bet);
            CreditedWith(AfterPolls(polls, s).recs[i]) == Paid(last, bet.info) <==>
            n < 0 || PayoutSum(polls[n].ledger, bet.info) == PayoutSum(last, bet.info)
  {
    hide Clear, Growing, RecordsApart, Bets, AfterPolls, Pairs, Only, PayoutSum, PayoutTime;
    OnlyThisBet(polls, taskId, s.recs[i], bet);
    RecordOverPolls(polls, s, taskId, i, bet, PollOf(polls, taskId));
  }

  function PollOf(polls: seq<Poll>, taskId: string): (q: Poll)
    requires Clear(polls, taskId) && polls != []
    ensures q.taskId == taskId && q == polls[|polls| - 1]
  {
    polls[|polls| - 1]
  }
}
