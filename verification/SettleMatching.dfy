/** Matching ledger bets to order records. There is no order id, so a bet is matched by account,
    amount and time; these lemmas say when that is unambiguous and what happens when it is not. */
module SettleMatching {
  import opened Options
  import opened Ledger
  import opened Settlement
  import R = OrderRing

  /* ---- Separation ---- */

  const AMOUNT_GAP := 0.02
  const TIME_GAP := 60 * SECOND

  predicate Apart(a: real, s: R.Time, b: real, t: R.Time) {
    R.Abs(a - b) > AMOUNT_GAP || s - t > TIME_GAP || t - s > TIME_GAP
  }

  // Records of the account, pairwise.
  ghost predicate RecordsApart(taskId: string, recs: seq<R.Record>) {
    forall i, j | 0 <= i < j < |recs| && recs[i].taskId == taskId && recs[j].taskId == taskId
                  && recs[i].amount.Some? && recs[j].amount.Some? ::
      Apart(recs[i].amount.value, recs[i].time, recs[j].amount.value, recs[j].time)
  }

  // Bets of the ledger, pairwise.
  ghost predicate BetsApart(bets: seq<Entry>) {
    forall i, j | 0 <= i < j < |bets| :: Apart(-bets[i].delta, Nanos(bets[i].time), -bets[j].delta, Nanos(bets[j].time))
  }

  ghost predicate Separated(p: Poll, recs: seq<R.Record>, bets: seq<Entry>) {
    RecordsApart(p.taskId, recs) && BetsApart(bets)
  }

  // A record and a bet that could be the same order; no poll changes this.
  predicate Pairs(p: Poll, r: R.Record, bet: Entry) { R.Fits(r, QueryFor(p, bet)) }

  lemma OneRecordPerBet(p: Poll, recs: seq<R.Record>, bet: Entry, i: nat, j: nat)
    requires RecordsApart(p.taskId, recs) && i < |recs| && j < |recs|
    requires Pairs(p, recs[i], bet) && Pairs(p, recs[j], bet)
    ensures i == j
  {
  }

  lemma OneBetPerRecord(p: Poll, r: R.Record, bets: seq<Entry>, i: nat, j: nat)
    requires BetsApart(bets) && i < |bets| && j < |bets|
    requires Pairs(p, r, bets[i]) && Pairs(p, r, bets[j])
    ensures i == j
  {
  }

  /* ---- What a poll does to the records ---- */

  function After(p: Poll, r: R.Record, bet: Entry): R.Record {
    var v := Decide(p, bet, Some(r.period));
    if R.Open(r) && Pairs(p, r, bet) then R.Settle(r, v.result, v.payout, v.settledAt) else r
  }

  // Same records apart from their settlement.
  ghost predicate SameOrders(s: R.Ring, t: R.Ring) {
    && t.last == s.last && t.max == s.max && |t.recs| == |s.recs|
    && forall i | 0 <= i < |s.recs| ::
         t.recs[i] ==
         s.recs[i].(result := t.recs[i].result, payout := t.recs[i].payout, settledAt := t.recs[i].settledAt)
  }

  // The record a bet finds, or -1.
  function Found(p: Poll, recs: seq<R.Record>, bet: Entry): (i: int)
    ensures -1 <= i < |recs|
    ensures i >= 0 ==> R.Open(recs[i])
  {
    R.Best(recs, QueryFor(p, bet))
  }

  // The record with the verdict of a bet on it.
  function Verdicted(p: Poll, r: R.Record, bet: Entry): R.Record {
    var v := Decide(p, bet, Some(r.period));
    R.Settle(r, v.result, v.payout, v.settledAt)
  }

  lemma CreditAt(p: Poll, s: R.Ring, bet: Entry)
    requires R.IdsSorted(s)
    ensures var i := Found(p, s.recs, bet);
            Credit(p, s, bet).recs == if i < 0 then s.recs else s.recs[i := Verdicted(p, s.recs[i], bet)]
    ensures R.IdsSorted(Credit(p, s, bet)) && SameOrders(s, Credit(p, s, bet))
  {
    hide Decide;
    var i := Found(p, s.recs, bet);
    if i >= 0 {
      R.IndexOfId(s, i);
      var v := Decide(p, bet, Some(s.recs[i].period));
      assert R.FindMatch(s.recs, QueryFor(p, bet)) == (s.recs[i].id, s.recs[i].period, true);
      assert v.result != R.Unset by { DecideSettles(p, bet, Some(s.recs[i].period)); }
    }
  }

  lemma DecideSettles(p: Poll, bet: Entry, period: Option<string>)
    ensures Decide(p, bet, period).result != R.Unset
  {
  }

  lemma MatchedAt(p: Poll, s: R.Ring, bet: Entry)
    requires R.IdsSorted(s)
    ensures var i := Found(p, s.recs, bet);
            MatchedPeriod(p, s.recs, bet) == if i < 0 then None else Some(s.recs[i].period)
  {
  }

  // With separated records a bet finds exactly the open record it pairs with.
  lemma FoundIsPaired(p: Poll, recs: seq<R.Record>, bet: Entry, i: nat)
    requires RecordsApart(p.taskId, recs) && i < |recs|
    ensures Found(p, recs, bet) == i <==> R.Open(recs[i]) && Pairs(p, recs[i], bet)
  {
    hide R.Best, R.Fits, RecordsApart;
    var b := Found(p, recs, bet);
    R.BestIsNearest(recs, QueryFor(p, bet));
    if R.Open(recs[i]) && Pairs(p, recs[i], bet) {
      assert R.Candidate(recs[i], QueryFor(p, bet));
      OneRecordPerBet(p, recs, bet, i, b);
    }
  }

  lemma ApartKept(taskId: string, s: R.Ring, t: R.Ring)
    requires SameOrders(s, t) && RecordsApart(taskId, s.recs)
    ensures RecordsApart(taskId, t.recs)
  {
    hide Apart;
  }

  // With separated records, crediting a bet settles exactly the record it pairs with.
  lemma CreditPointwise(p: Poll, s: R.Ring, bet: Entry)
    requires R.IdsSorted(s) && RecordsApart(p.taskId, s.recs)
    ensures SameOrders(s, Credit(p, s, bet)) && R.IdsSorted(Credit(p, s, bet))
    ensures RecordsApart(p.taskId, Credit(p, s, bet).recs)
    ensures forall i | 0 <= i < |s.recs| :: Credit(p, s, bet).recs[i] == After(p, s.recs[i], bet)
    ensures forall i | 0 <= i < |s.recs| && Pairs(p, s.recs[i], bet) ::
              MatchedPeriod(p, s.recs, bet) == if R.Open(s.recs[i]) then Some(s.recs[i].period) else None
    ensures (forall i | 0 <= i < |s.recs| :: !Pairs(p, s.recs[i], bet)) ==> MatchedPeriod(p, s.recs, bet) == None
  {
    CreditAt(p, s, bet);
    MatchedAt(p, s, bet);
    ApartKept(p.taskId, s, Credit(p, s, bet));
    hide Credit, MatchedPeriod, Pairs, RecordsApart, Decide;
    var b := Found(p, s.recs, bet);
    forall i | 0 <= i < |s.recs|
      ensures b == i <==> R.Open(s.recs[i]) && Pairs(p, s.recs[i], bet)
    {
      FoundIsPaired(p, s.recs, bet, i);
    }
    forall i | 0 <= i < |s.recs| && Pairs(p, s.recs[i], bet) && b >= 0
      ensures b == i
    {
      OneRecordPerBet(p, s.recs, bet, i, b);
    }
  }

  function AfterAll(p: Poll, r: R.Record, bets: seq<Entry>): R.Record {
    if bets == [] then r else After(p, AfterAll(p, r, bets[..|bets| - 1]), bets[|bets| - 1])
  }

  lemma {:induction false} CreditedPointwise(p: Poll, s: R.Ring, bets: seq<Entry>)
    requires R.IdsSorted(s) && RecordsApart(p.taskId, s.recs)
    ensures var t := Credited(p, s, bets);
            && SameOrders(s, t) && R.IdsSorted(t) && RecordsApart(p.taskId, t.recs)
            && (forall i | 0 <= i < |s.recs| :: t.recs[i] == AfterAll(p, s.recs[i], bets))
  {
    if bets != [] {
      var n := |bets| - 1;
      CreditedPointwise(p, s, bets[..n]);
      CreditPointwise(p, Credited(p, s, bets[..n]), bets[n]);
    }
  }

  lemma {:induction false} AfterAllKeepsOrder(p: Poll, r: R.Record, bets: seq<Entry>)
    ensures var r' := AfterAll(p, r, bets);
            r' == r.(result := r'.result, payout := r'.payout, settledAt := r'.settledAt)
  {
    if bets != [] {
      AfterAllKeepsOrder(p, r, bets[..|bets| - 1]);
    }
  }

  lemma {:induction false} Unpaired(p: Poll, r: R.Record, bets: seq<Entry>)
    requires forall k | 0 <= k < |bets| :: !Pairs(p, r, bets[k])
    ensures AfterAll(p, r, bets) == r
  {
    if bets != [] {
      var n := |bets| - 1;
      assert forall k | 0 <= k < n :: bets[..n][k] == bets[k];
      Unpaired(p, r, bets[..n]);
    }
  }

  // A record is settled by the one bet it pairs with, as if that bet stood alone.
  lemma {:induction false} Paired(p: Poll, r: R.Record, bets: seq<Entry>, k: nat)
    requires BetsApart(bets) && k < |bets| && Pairs(p, r, bets[k])
    ensures AfterAll(p, r, bets) == After(p, r, bets[k])
  {
    var n := |bets| - 1;
    if k < n {
      assert bets[..n][k] == bets[k];
      Paired(p, r, bets[..n], k);
      if Pairs(p, r, bets[n]) {
        OneBetPerRecord(p, r, bets, k, n);
      }
    } else {
      forall j | 0 <= j < n
        ensures !Pairs(p, r, bets[..n][j])
      {
        if Pairs(p, r, bets[j]) {
          OneBetPerRecord(p, r, bets, j, n);
        }
      }
      Unpaired(p, r, bets[..n]);
    }
  }

  // The pairing is one to one: no record can be matched by two bets, no bet by two records.
  lemma MatchingIsInjective(p: Poll, s: R.Ring, bets: seq<Entry>, i: nat, j: nat, k: nat, l: nat)
    requires Separated(p, s.recs, bets) && i < |s.recs| && j < |s.recs| && k < |bets| && l < |bets|
    requires Pairs(p, s.recs[i], bets[k]) && Pairs(p, s.recs[j], bets[l])
    ensures i == j <==> k == l
  {
    if i == j {
      OneBetPerRecord(p, s.recs[i], bets, k, l);
    }
    if k == l {
      OneRecordPerBet(p, s.recs, bets[k], i, j);
    }
  }

  /* ---- Order of the ledger ---- */

  lemma BetsApartPermuted(a: seq<Entry>, b: seq<Entry>)
    requires BetsApart(a) && multiset(a) == multiset(b)
    ensures BetsApart(b)
  {
    forall i, j | 0 <= i < j < |b|
      ensures Apart(-b[i].delta, Nanos(b[i].time), -b[j].delta, Nanos(b[j].time))
    {
      assert b[i] in multiset(b) && b[j] in multiset(b);
      if b[i] == b[j] {
        Twice(b, i, j);
        Once(a, b[i]);
      }
      var k :| 0 <= k < |a| && a[k] == b[i];
      var l :| 0 <= l < |a| && a[l] == b[j];
    }
  }

  lemma Twice(b: seq<Entry>, i: nat, j: nat)
    requires i < j < |b| && b[i] == b[j]
    ensures multiset(b)[b[i]] >= 2
  {
    assert b == b[..i] + [b[i]] + b[i + 1..j] + [b[j]] + b[j + 1..];
  }

  lemma {:induction false} Once(a: seq<Entry>, e: Entry)
    requires BetsApart(a)
    ensures multiset(a)[e] <= 1
  {
    if a != [] {
      var n := |a| - 1;
      Once(a[..n], e);
      assert a == a[..n] + [a[n]];
    }
  }

  // The stat of one bet, as decided against the store before the poll.
  function Alone(p: Poll, s: R.Ring, bet: Entry): Stat {
    Share(p, bet, Decide(p, bet, MatchedPeriod(p, s.recs, bet)))
  }

  function TotalAlone(p: Poll, s: R.Ring, bets: seq<Entry>): Stat {
    if bets == [] then ZERO else Add(TotalAlone(p, s, bets[..|bets| - 1]), Alone(p, s, bets[|bets| - 1]))
  }

  // No bet is influenced by the bets before it.
  lemma {:induction false} SummedAlone(p: Poll, s: R.Ring, bets: seq<Entry>)
    requires R.IdsSorted(s) && Separated(p, s.recs, bets)
    ensures Summed(p, s, bets) == TotalAlone(p, s, bets)
  {
    if bets != [] {
      var n := |bets| - 1;
      SummedAlone(p, s, bets[..n]);
      MatchUnaffected(p, s, bets[..n], bets[n]) by {
        assert bets == bets[..n] + [bets[n]];
      }
    }
  }

  // Which record a bet matches is decided by the records it pairs with.
  lemma SameMatch(p: Poll, s: R.Ring, t: R.Ring, bet: Entry)
    requires R.IdsSorted(s) && RecordsApart(p.taskId, s.recs) && R.IdsSorted(t) && RecordsApart(p.taskId, t.recs)
    requires SameOrders(s, t)
    requires forall i | 0 <= i < |s.recs| && Pairs(p, s.recs[i], bet) :: R.Open(t.recs[i]) == R.Open(s.recs[i])
    ensures MatchedPeriod(p, t.recs, bet) == MatchedPeriod(p, s.recs, bet)
  {
    hide MatchedPeriod, Credit;
    CreditPointwise(p, s, bet);
    CreditPointwise(p, t, bet);
    assert forall i | 0 <= i < |s.recs| :: Pairs(p, t.recs[i], bet) == Pairs(p, s.recs[i], bet);
    if i :| 0 <= i < |s.recs| && Pairs(p, s.recs[i], bet) {
      assert Pairs(p, t.recs[i], bet);
    }
  }

  lemma MatchUnaffected(p: Poll, s: R.Ring, bets: seq<Entry>, bet: Entry)
    requires R.IdsSorted(s) && Separated(p, s.recs, bets + [bet])
    ensures MatchedPeriod(p, Credited(p, s, bets).recs, bet) == MatchedPeriod(p, s.recs, bet)
  {
    hide MatchedPeriod, Credited;
    var all := bets + [bet];
    CreditedPointwise(p, s, bets);
    forall i | 0 <= i < |s.recs| && Pairs(p, s.recs[i], bet)
      ensures AfterAll(p, s.recs[i], bets) == s.recs[i]
    {
      forall k | 0 <= k < |bets|
        ensures !Pairs(p, s.recs[i], bets[k])
      {
        assert all[k] == bets[k];
        if Pairs(p, s.recs[i], bets[k]) {
          OneBetPerRecord(p, s.recs[i], all, k, |bets|);
        }
      }
      Unpaired(p, s.recs[i], bets);
    }
    SameMatch(p, s, Credited(p, s, bets), bet);
  }

  lemma {:induction false} TotalWithout(p: Poll, s: R.Ring, bets: seq<Entry>, k: nat)
    requires k < |bets|
    ensures TotalAlone(p, s, bets) == Add(TotalAlone(p, s, bets[..k] + bets[k + 1..]), Alone(p, s, bets[k]))
  {
    hide Alone;
    var n := |bets| - 1;
    var rest := bets[..k] + bets[k + 1..];
    if k == n {
      assert rest == bets[..n];
    } else {
      TotalWithout(p, s, bets[..n], k);
      assert bets[..n][..k] + bets[..n][k + 1..] == rest[..n - 1];
      assert rest[n - 1] == bets[n];
    }
  }

  lemma {:induction false} TotalPermuted(p: Poll, s: R.Ring, a: seq<Entry>, b: seq<Entry>)
    requires multiset(a) == multiset(b)
    ensures TotalAlone(p, s, a) == TotalAlone(p, s, b)
    decreases |a|
  {
    hide Alone, Add;
    if a == [] {
      assert |multiset(b)| == 0;
    } else {
      var k := LastOf(a, b);
      TotalWithout(p, s, b, k);
      TotalPermuted(p, s, a[..|a| - 1], b[..k] + b[k + 1..]);
    }
  }

  // Under separation neither the records nor the summary depend on the order of the bets.
  lemma LedgerOrderIrrelevant(p: Poll, s: R.Ring, a: seq<Entry>, b: seq<Entry>)
    requires R.IdsSorted(s) && Separated(p, s.recs, a) && multiset(a) == multiset(b)
    ensures Credited(p, s, a).recs == Credited(p, s, b).recs
    ensures Summed(p, s, a) == Summed(p, s, b)
  {
    BetsApartPermuted(a, b);
    SummedAlone(p, s, a);
    SummedAlone(p, s, b);
    TotalPermuted(p, s, a, b);
    CreditedPointwise(p, s, a);
    CreditedPointwise(p, s, b);
    forall i | 0 <= i < |s.recs|
      ensures AfterAll(p, s.recs[i], a) == AfterAll(p, s.recs[i], b)
    {
      if k :| 0 <= k < |a| && Pairs(p, s.recs[i], a[k]) {
        assert a[k] in multiset(b);
        var l :| 0 <= l < |b| && b[l] == a[k];
        Paired(p, s.recs[i], a, k);
        Paired(p, s.recs[i], b, l);
      } else {
        forall l | 0 <= l < |b|
          ensures !Pairs(p, s.recs[i], b[l])
        {
          assert b[l] in multiset(a);
        }
        Unpaired(p, s.recs[i], a);
        Unpaired(p, s.recs[i], b);
      }
    }
  }

  lemma {:induction false} SamePoll(p: Poll, p': Poll, s: R.Ring, bets: seq<Entry>)
    requires p' == p.(ledger := p'.ledger)
    requires forall i ::
      PayoutSum(p'.ledger, i) == PayoutSum(p.ledger, i) && PayoutTime(p'.ledger, i) == PayoutTime(p.ledger, i)
    ensures Credited(p', s, bets) == Credited(p, s, bets) && Summed(p', s, bets) == Summed(p, s, bets)
  {
    if bets != [] {
      SamePoll(p, p', s, bets[..|bets| - 1]);
    }
  }

  // The whole poll: a ledger listing the same transactions in another order settles the same records
  // the same way and reports the same summary.
  lemma PollIgnoresLedgerOrder(p: Poll, s: R.Ring, shuffled: seq<Entry>)
    requires DistinctIds(p.ledger) && DistinctIds(shuffled) && multiset(p.ledger) == multiset(shuffled)
    requires R.IdsSorted(s) && Separated(p, s.recs, Bets(p.ledger))
    ensures var p' := p.(ledger := shuffled);
            && Credited(p', s, Bets(shuffled)).recs == Credited(p, s, Bets(p.ledger)).recs
            && Summed(p', s, Bets(shuffled)) == Summed(p, s, Bets(p.ledger))
  {
    forall i: string
      ensures PayoutSum(shuffled, i) == PayoutSum(p.ledger, i) && PayoutTime(shuffled, i) == PayoutTime(p.ledger, i)
    {
      PayoutsPermuted(p.ledger, shuffled, i);
    }
    SamePoll(p, p.(ledger := shuffled), s, Bets(shuffled));
    BetsPermuted(p.ledger, shuffled);
    LedgerOrderIrrelevant(p, s, Bets(p.ledger), Bets(shuffled));
  }

  /* ---- Polling again ---- */

  // Deciding a bet again against the record it settled gives the same verdict.
  lemma AfterIsIdempotent(p: Poll, r: R.Record, bet: Entry)
    ensures After(p, After(p, r, bet), bet) == After(p, r, bet)
  {
  }

  // Under separation, polling the same ledger again at the same time changes neither the records nor
  // the summary.
  lemma RepollIsIdempotent(p: Poll, s: R.Ring, bets: seq<Entry>)
    requires R.IdsSorted(s) && Separated(p, s.recs, bets)
    ensures var t := Credited(p, s, bets);
            Credited(p, t, bets).recs == t.recs && Summed(p, t, bets) == Summed(p, s, bets)
  {
    var t := Credited(p, s, bets);
    CreditedPointwise(p, s, bets);
    CreditedPointwise(p, t, bets);
    forall i | 0 <= i < |s.recs|
      ensures AfterAll(p, t.recs[i], bets) == t.recs[i]
    {
      AfterAllKeepsOrder(p, s.recs[i], bets);
      if k :| 0 <= k < |bets| && Pairs(p, s.recs[i], bets[k]) {
        Paired(p, s.recs[i], bets, k);
        Paired(p, t.recs[i], bets, k);
        AfterIsIdempotent(p, s.recs[i], bets[k]);
      } else {
        Unpaired(p, s.recs[i], bets);
        Unpaired(p, t.recs[i], bets);
      }
    }
    SummedAlone(p, s, bets);
    SummedAlone(p, t, bets);
    forall k | 0 <= k < |bets|
      ensures Alone(p, t, bets[k]) == Alone(p, s, bets[k])
    {
      AloneAgain(p, s, bets, k);
    }
    TotalEqual(p, s, t, bets);
  }

  lemma AloneAgain(p: Poll, s: R.Ring, bets: seq<Entry>, k: nat)
    requires R.IdsSorted(s) && Separated(p, s.recs, bets) && k < |bets|
    ensures Alone(p, Credited(p, s, bets), bets[k]) == Alone(p, s, bets[k])
  {
    hide MatchedPeriod, Credited, Share;
    var t := Credited(p, s, bets);
    CreditedPointwise(p, s, bets);
    forall i | 0 <= i < |s.recs| && Pairs(p, s.recs[i], bets[k])
      ensures t.recs[i] == After(p, s.recs[i], bets[k])
    {
      Paired(p, s.recs[i], bets, k);
    }
    // A win no longer matches, but it is decided by the payout alone; a pending or lost bet still does.
    if PayoutSum(p.ledger, bets[k].info) <= 0.0 {
      SameMatch(p, s, t, bets[k]);
    }
  }

  lemma {:induction false} TotalEqual(p: Poll, s: R.Ring, t: R.Ring, bets: seq<Entry>)
    requires forall k | 0 <= k < |bets| :: Alone(p, t, bets[k]) == Alone(p, s, bets[k])
    ensures TotalAlone(p, t, bets) == TotalAlone(p, s, bets)
  {
    if bets != [] {
      var n := |bets| - 1;
      assert forall k | 0 <= k < n :: bets[..n][k] == bets[k];
      TotalEqual(p, s, t, bets[..n]);
    }
  }

  /* ---- Without separation ---- */

  // One paid bet: polling it twice changes the records again exactly when a second open record fits
  // it. That record then is credited with the very same payout.
  lemma RepollOfPaidBetIff(p: Poll, s: R.Ring, bet: Entry)
    requires R.IdsSorted(s) && PayoutSum(p.ledger, bet.info) > 0.0
    ensures var t := Credit(p, s, bet);
            Credit(p, t, bet).recs == t.recs <==>
            forall i, j | 0 <= i < |s.recs| && 0 <= j < |s.recs|
                          && R.Candidate(s.recs[i], QueryFor(p, bet)) && R.Candidate(s.recs[j], QueryFor(p, bet)) ::
              i == j
    ensures var t := Credit(p, s, bet); var u := Credit(p, t, bet);
            u.recs != t.recs ==>
              exists i, j :: 0 <= i < |u.recs| && 0 <= j < |u.recs| && i != j
                             && u.recs[i].result == R.Win && u.recs[j].result == R.Win
                             && R.Open(s.recs[i]) && R.Open(s.recs[j])
                             && u.recs[i].payout == u.recs[j].payout == PayoutSum(p.ledger, bet.info)
  {
    var q := QueryFor(p, bet);
    var t := Credit(p, s, bet);
    var b := R.Best(s.recs, q);
    R.BestIsNearest(s.recs, q);
    if b >= 0 {
      R.IndexOfId(s, b);
      var at := Some(Nanos(PayoutTime(p.ledger, bet.info)));
      assert t.recs == s.recs[b := R.Settle(s.recs[b], R.Win, PayoutSum(p.ledger, bet.info), at)];
      assert R.IdsSorted(t);
      R.BestIsNearest(t.recs, q);
      var c := R.Best(t.recs, q);
      if c >= 0 {
        R.IndexOfId(t, c);
        assert c != b && R.Candidate(s.recs[c], q) && R.Candidate(s.recs[b], q);
        assert Credit(p, t, bet).recs[c].result == R.Win != t.recs[c].result;
      } else {
        forall i | 0 <= i < |s.recs| && R.Candidate(s.recs[i], q)
          ensures i == b
        {
          assert !R.Candidate(t.recs[i], q);
        }
      }
    }
  }

  lemma UnpaidStaysOpen(p: Poll, bet: Entry, period: Option<string>)
    requires PayoutSum(p.ledger, bet.info) <= 0.0
    ensures Decide(p, bet, period).result == R.Loss || Decide(p, bet, period).result == R.Undecided
  {
  }

  // A lost or pending bet leaves its record open, so it finds the same record again and decides the
  // same: whatever else fits, polling it twice changes nothing.
  lemma RepollOfUnpaidBet(p: Poll, s: R.Ring, bet: Entry)
    requires R.IdsSorted(s) && PayoutSum(p.ledger, bet.info) <= 0.0
    ensures var t := Credit(p, s, bet); Credit(p, t, bet).recs == t.recs
  {
    hide Decide, PayoutSum, R.Best;
    var q := QueryFor(p, bet);
    var t := Credit(p, s, bet);
    var b := R.Best(s.recs, q);
    R.BestIsNearest(s.recs, q);
    if b >= 0 {
      R.IndexOfId(s, b);
      var v := Decide(p, bet, Some(s.recs[b].period));
      UnpaidStaysOpen(p, bet, Some(s.recs[b].period));
      assert t.recs == s.recs[b := R.Settle(s.recs[b], v.result, v.payout, v.settledAt)];
      assert forall j | 0 <= j < |s.recs| :: R.Candidate(t.recs[j], q) == R.Candidate(s.recs[j], q);
      R.NearestIsBest(t.recs, q, b);
      assert R.IdsSorted(t);
      R.IndexOfId(t, b);
    }
  }

  // So for one bet, exactly this makes polling twice harmless: it was not paid, or at most one open
  // record fits it.
  lemma RepollOfOneBetIff(p: Poll, s: R.Ring, bet: Entry)
    requires R.IdsSorted(s)
    ensures var t := Credit(p, s, bet);
            Credit(p, t, bet).recs == t.recs <==>
            PayoutSum(p.ledger, bet.info) <= 0.0 ||
            forall i, j | 0 <= i < |s.recs| && 0 <= j < |s.recs|
                          && R.Candidate(s.recs[i], QueryFor(p, bet)) && R.Candidate(s.recs[j], QueryFor(p, bet)) ::
              i == j
  {
    hide Credit, PayoutSum;
    if PayoutSum(p.ledger, bet.info) > 0.0 {
      RepollOfPaidBetIff(p, s, bet);
    } else {
      RepollOfUnpaidBet(p, s, bet);
    }
  }

  /* ---- A whole poll, without separation ---- */

  predicate IsPaid(p: Poll, bet: Entry) { PayoutSum(p.ledger, bet.info) > 0.0 }

  lemma {:induction false} CreditedSorted(p: Poll, s: R.Ring, bets: seq<Entry>)
    requires R.IdsSorted(s)
    ensures R.IdsSorted(Credited(p, s, bets)) && SameOrders(s, Credited(p, s, bets))
  {
    hide Credit;
    if bets != [] {
      CreditedSorted(p, s, bets[..|bets| - 1]);
      CreditAt(p, Credited(p, s, bets[..|bets| - 1]), bets[|bets| - 1]);
    }
  }

  // What a bet finds depends on the orders and on which of them are open, not on the verdicts.
  ghost predicate SameOpen(s: R.Ring, t: R.Ring) {
    SameOrders(s, t) && forall i | 0 <= i < |s.recs| :: R.Open(t.recs[i]) == R.Open(s.recs[i])
  }

  lemma SameFound(p: Poll, s: R.Ring, t: R.Ring, bet: Entry)
    requires SameOpen(s, t)
    ensures Found(p, t.recs, bet) == Found(p, s.recs, bet)
  {
    hide R.Best;
    var q := QueryFor(p, bet);
    assert forall i | 0 <= i < |s.recs| :: R.Candidate(t.recs[i], q) == R.Candidate(s.recs[i], q);
    R.BestIsNearest(s.recs, q);
    R.BestIsNearest(t.recs, q);
    if R.Best(s.recs, q) >= 0 {
      R.NearestIsBest(t.recs, q, R.Best(s.recs, q));
    }
  }

  ghost predicate PaidFindNone(p: Poll, recs: seq<R.Record>, bets: seq<Entry>) {
    forall k | 0 <= k < |bets| && IsPaid(p, bets[k]) :: Found(p, recs, bets[k]) < 0
  }

  // Bet k is the last one that finds record i.
  ghost predicate LastFinder(p: Poll, recs: seq<R.Record>, bets: seq<Entry>, k: int, i: int) {
    0 <= k < |bets| && Found(p, recs, bets[k]) == i && forall l | k < l < |bets| :: Found(p, recs, bets[l]) != i
  }

  // The last bet that finds a record has its verdict on it already.
  ghost predicate LastWordWritten(p: Poll, recs: seq<R.Record>, bets: seq<Entry>) {
    forall i, k | 0 <= i < |recs| && 0 <= k < |bets| && LastFinder(p, recs, bets, k, i) ::
      recs[i] == Verdicted(p, recs[i], bets[k])
  }

  // Record i after the bets, as long as none of them wins a record.
  function LastWord(p: Poll, recs: seq<R.Record>, bets: seq<Entry>, i: nat): R.Record
    requires i < |recs|
  {
    if bets == [] then recs[i]
    else
      var n := |bets| - 1;
      if Found(p, recs, bets[n]) == i then Verdicted(p, recs[i], bets[n]) else LastWord(p, recs, bets[..n], i)
  }

  lemma {:induction false} LastWordIs(p: Poll, recs: seq<R.Record>, bets: seq<Entry>, i: nat)
    requires i < |recs|
    ensures forall k | 0 <= k < |bets| && LastFinder(p, recs, bets, k, i) ::
              LastWord(p, recs, bets, i) == Verdicted(p, recs[i], bets[k])
    ensures (forall k | 0 <= k < |bets| :: !LastFinder(p, recs, bets, k, i)) ==> LastWord(p, recs, bets, i) == recs[i]
  {
    hide Found, Verdicted;
    if bets != [] {
      var n := |bets| - 1;
      LastWordIs(p, recs, bets[..n], i);
      if Found(p, recs, bets[n]) == i {
        assert LastFinder(p, recs, bets, n, i);
      } else {
        forall k | 0 <= k < |bets|
          ensures LastFinder(p, recs, bets, k, i) == (k < n && LastFinder(p, recs, bets[..n], k, i))
        {
          assert forall l | 0 <= l < n :: bets[..n][l] == bets[l];
        }
      }
    }
  }

  lemma WordsWrittenIff(p: Poll, recs: seq<R.Record>, bets: seq<Entry>)
    ensures LastWordWritten(p, recs, bets) <==> forall i | 0 <= i < |recs| :: LastWord(p, recs, bets, i) == recs[i]
  {
    hide LastWord, LastFinder, Verdicted;
    forall i | 0 <= i < |recs|
      ensures LastWord(p, recs, bets, i) == recs[i] <==>
              forall k | 0 <= k < |bets| && LastFinder(p, recs, bets, k, i) :: recs[i] == Verdicted(p, recs[i], bets[k])
    {
      LastWordIs(p, recs, bets, i);
    }
  }

  lemma UnpaidVerdictKeepsOrder(p: Poll, r: R.Record, s: R.Record, bet: Entry)
    requires !IsPaid(p, bet) && s == r.(result := s.result, payout := s.payout, settledAt := s.settledAt)
    ensures Verdicted(p, s, bet) == Verdicted(p, r, bet) && R.Open(Verdicted(p, r, bet))
  {
  }

  // While no paid bet finds a record, nothing closes: every record ends with the word of its last finder.
  lemma {:induction false} QuietPoll(p: Poll, t: R.Ring, bets: seq<Entry>)
    requires R.IdsSorted(t) && PaidFindNone(p, t.recs, bets)
    ensures SameOpen(t, Credited(p, t, bets))
    ensures forall i | 0 <= i < |t.recs| :: Credited(p, t, bets).recs[i] == LastWord(p, t.recs, bets, i)
  {
    hide Found, Verdicted, Credit, IsPaid;
    if bets != [] {
      var n := |bets| - 1;
      var bet := bets[n];
      assert forall k | 0 <= k < n :: bets[..n][k] == bets[k];
      QuietPoll(p, t, bets[..n]);
      var u := Credited(p, t, bets[..n]);
      CreditedSorted(p, t, bets[..n]);
      CreditAt(p, u, bet);
      SameFound(p, t, u, bet);
      var i := Found(p, t.recs, bet);
      if i >= 0 {
        assert R.Open(t.recs[i]);
        UnpaidVerdictKeepsOrder(p, t.recs[i], u.recs[i], bet);
      }
    }
  }

  lemma WinsStay(p: Poll, s: R.Ring, bet: Entry, i: nat)
    requires R.IdsSorted(s) && i < |s.recs| && s.recs[i].result == R.Win
    ensures Credit(p, s, bet).recs[i] == s.recs[i]
  {
    hide Credit;
    CreditAt(p, s, bet);
  }

  // The first paid bet that finds an open record wins it for good.
  lemma {:induction false} PaidFinderWins(p: Poll, t: R.Ring, bets: seq<Entry>) returns (i: nat)
    requires R.IdsSorted(t) && !PaidFindNone(p, t.recs, bets)
    ensures i < |t.recs| && i < |Credited(p, t, bets).recs|
    ensures R.Open(t.recs[i]) && Credited(p, t, bets).recs[i].result == R.Win
  {
    hide Found, Verdicted, Credit, IsPaid;
    var n := |bets| - 1;
    var u := Credited(p, t, bets[..n]);
    CreditedSorted(p, t, bets[..n]);
    CreditedSorted(p, t, bets);
    if PaidFindNone(p, t.recs, bets[..n]) {
      QuietPoll(p, t, bets[..n]);
      assert forall k | 0 <= k < n :: bets[..n][k] == bets[k];
      assert IsPaid(p, bets[n]) && Found(p, t.recs, bets[n]) >= 0;
      SameFound(p, t, u, bets[n]);
      CreditAt(p, u, bets[n]);
      i := Found(p, t.recs, bets[n]);
      PaidVerdictWins(p, u.recs[i], bets[n]);
    } else {
      i := PaidFinderWins(p, t, bets[..n]);
      WinsStay(p, u, bets[n], i);
    }
  }

  lemma PaidVerdictWins(p: Poll, r: R.Record, bet: Entry)
    requires IsPaid(p, bet)
    ensures Verdicted(p, r, bet).result == R.Win
  {
  }

  // Exactly when a poll leaves the records as they are: no paid bet finds an open one, and on every
  // record the last bet that finds it has its verdict written already.
  lemma PollKeepsRecordsIff(p: Poll, t: R.Ring, bets: seq<Entry>)
    requires R.IdsSorted(t)
    ensures Credited(p, t, bets).recs == t.recs <==>
            PaidFindNone(p, t.recs, bets) && LastWordWritten(p, t.recs, bets)
  {
    hide PaidFindNone, LastWordWritten, LastWord, Credited;
    if PaidFindNone(p, t.recs, bets) {
      QuietPoll(p, t, bets);
      WordsWrittenIff(p, t.recs, bets);
    } else {
      var i := PaidFinderWins(p, t, bets);
    }
  }

  // The second poll of a whole ledger at the same time, separated or not.
  lemma RepollIff(p: Poll, s: R.Ring, bets: seq<Entry>)
    requires R.IdsSorted(s)
    ensures var t := Credited(p, s, bets);
            Credited(p, t, bets).recs == t.recs <==>
            PaidFindNone(p, t.recs, bets) && LastWordWritten(p, t.recs, bets)
  {
    CreditedSorted(p, s, bets);
    PollKeepsRecordsIff(p, Credited(p, s, bets), bets);
  }

  // After the unpaid and then the paid bet: the paid one has won record i, and nothing else closed.
  lemma BothCredited(p: Poll, s: R.Ring, unpaid: Entry, paid: Entry, i: nat)
    requires R.IdsSorted(s) && !IsPaid(p, unpaid) && IsPaid(p, paid) && i < |s.recs|
    requires Found(p, s.recs, unpaid) == i && Found(p, s.recs, paid) == i
    ensures var t := Credited(p, s, [unpaid, paid]);
            && R.IdsSorted(t) && SameOrders(s, t) && t.recs[i].result == R.Win
            && forall k | 0 <= k < |s.recs| && k != i :: t.recs[k] == s.recs[k]
  {
    hide IsPaid, Found, Verdicted, Credit;
    var bets := [unpaid, paid];
    assert bets[..1] == [unpaid] && [unpaid][..0] == [];
    var s1 := Credit(p, s, unpaid);
    assert Credited(p, s, []) == s && Credited(p, s, [unpaid]) == s1;
    CreditAt(p, s, unpaid);
    UnpaidVerdictKeepsOrder(p, s.recs[i], s.recs[i], unpaid);
    SameFound(p, s, s1, paid);
    CreditAt(p, s1, paid);
    PaidVerdictWins(p, s1.recs[i], paid);
  }

  // Bets that are harmless alone need not be together: an unpaid one moves on to another order when a
  // paid one wins the record both find.
  lemma HarmlessOnlyAlone(p: Poll, s: R.Ring, unpaid: Entry, paid: Entry, i: nat, j: nat)
    requires R.IdsSorted(s) && !IsPaid(p, unpaid) && IsPaid(p, paid) && i < |s.recs| && j < |s.recs| && i != j
    requires Found(p, s.recs, unpaid) == i && R.Candidate(s.recs[j], QueryFor(p, unpaid))
    requires forall k | 0 <= k < |s.recs| :: R.Candidate(s.recs[k], QueryFor(p, paid)) <==> k == i
    requires forall k | 0 <= k < |s.recs| :: s.recs[k].result == R.Unset
    ensures Credit(p, Credit(p, s, unpaid), unpaid).recs == Credit(p, s, unpaid).recs
    ensures Credit(p, Credit(p, s, paid), paid).recs == Credit(p, s, paid).recs
    ensures var t := Credited(p, s, [unpaid, paid]); Credited(p, t, [unpaid, paid]).recs != t.recs
  {
    hide PayoutSum, Decide, Credit, Credited, R.Best, R.SameOrder;
    RepollOfUnpaidBet(p, s, unpaid);
    RepollOfPaidBetIff(p, s, paid);
    R.BestIsNearest(s.recs, QueryFor(p, paid));
    BothCredited(p, s, unpaid, paid, i);
    var bets := [unpaid, paid];
    var t := Credited(p, s, bets);
    NewlyFound(p, s, t, unpaid, paid, i, j);
    var m := Found(p, t.recs, unpaid);
    assert LastFinder(p, t.recs, bets, 0, m);
    DecideSettles(p, unpaid, Some(t.recs[m].period));
    RepollIff(p, s, bets);
  }

  lemma NewlyFound(p: Poll, s: R.Ring, t: R.Ring, unpaid: Entry, paid: Entry, i: nat, j: nat)
    requires i < |s.recs| && j < |s.recs| && i != j && |t.recs| == |s.recs| && t.recs[i].result == R.Win
    requires forall k | 0 <= k < |s.recs| && k != i :: t.recs[k] == s.recs[k]
    requires R.Candidate(s.recs[j], QueryFor(p, unpaid))
    requires forall k | 0 <= k < |s.recs| :: R.Candidate(s.recs[k], QueryFor(p, paid)) <==> k == i
    ensures Found(p, t.recs, paid) < 0
    ensures var m := Found(p, t.recs, unpaid); m >= 0 && m != i && t.recs[m] == s.recs[m]
  {
    hide R.Best, R.Fits;
    R.BestIsNearest(t.recs, QueryFor(p, unpaid));
    R.BestIsNearest(t.recs, QueryFor(p, paid));
    assert R.Candidate(t.recs[j], QueryFor(p, unpaid));
  }

  // Two orders of one amount, twenty seconds apart: the unpaid bet is nearest to the second, and the
  // paid one fits only that. The second poll marks the first order too.
  lemma RepollMovesABet() returns (p: Poll, s: R.Ring)
    ensures R.IdsSorted(s) && DistinctIds(p.ledger)
    ensures var t := Credited(p, s, Bets(p.ledger)); Credited(p, t, Bets(p.ledger)).recs != t.recs
  {
    var unpaid := Entry(1, OrderDebit, -10.0, "a", 15_000);
    var paid := Entry(2, OrderDebit, -10.0, "b", 45_000);
    var payout := Entry(3, Payout, 18.0, "b", 60_000);
    p := Poll("x", [unpaid, paid, payout], 0, 0);
    var first := Placed(1, 0);
    var second := Placed(2, 20 * SECOND);
    s := R.Ring(200, 2, [first, second], false);
    BetsOfThree(unpaid, paid, payout);
    SumsOfThree(unpaid, paid, payout);
    FoundByBoth(p, s, unpaid, paid);
    HarmlessOnlyAlone(p, s, unpaid, paid, 1, 0);
  }

  // An accepted order of amount 10 on account x, not yet settled.
  function Placed(id: int, at: R.Time): R.Record {
    R.Record(id, at, at, 0, R.Details("", "", "", "", "", ""), "x", "5m", Some(10.0),
             R.Success, 200, "", "", "", 1, R.Unset, 0.0, None)
  }

  lemma BetsOfThree(a: Entry, b: Entry, c: Entry)
    requires a.kind == OrderDebit && a.delta < 0.0 && b.kind == OrderDebit && b.delta < 0.0 && c.kind == Payout
    requires a.tranId != b.tranId
    ensures Bets([a, b, c]) == [a, b]
  {
    assert [a, b, c][..2] == [a, b] && [a, b][..1] == [a] && [a][..0] == [];
    assert Bets([a]) == [a] && Bets([a, b]) == [a, b];
  }

  lemma SumsOfThree(a: Entry, b: Entry, c: Entry)
    requires a.kind == OrderDebit && b.kind == OrderDebit && c.kind == Payout
    ensures forall info :: PayoutSum([a, b, c], info) == if c.info == info then c.delta else 0.0
  {
    assert [a, b, c][..2] == [a, b] && [a, b][..1] == [a] && [a][..0] == [];
    assert forall info :: PayoutSum([a], info) == 0.0;
    assert forall info :: PayoutSum([a, b], info) == 0.0;
  }

  lemma FoundByBoth(p: Poll, s: R.Ring, unpaid: Entry, paid: Entry)
    requires p.taskId == "x" && s.recs == [Placed(1, 0), Placed(2, 20 * SECOND)]
    requires unpaid.delta == paid.delta == -10.0 && unpaid.time == 15_000 && paid.time == 45_000
    ensures Found(p, s.recs, unpaid) == 1 && R.Candidate(s.recs[0], QueryFor(p, unpaid))
    ensures forall k | 0 <= k < |s.recs| :: R.Candidate(s.recs[k], QueryFor(p, paid)) <==> k == 1
  {
    R.BestIsNearest(s.recs, QueryFor(p, unpaid));
    assert R.Candidate(s.recs[1], QueryFor(p, unpaid));
  }
}
