/** What a poll makes of one bet, in terms of the record fields, the ledger row and the clock. */
module SettleVerdicts {
  import opened Options
  import opened Ledger
  import opened Settlement
  import opened SettleMatching
  import opened SettleMoney
  import Periods
  import R = OrderRing

  // Which records a bet can be credited to: those of the account, of its amount to a cent, placed
  // within 30 seconds of it and not won.
  lemma BetFitsRecord(p: Poll, r: R.Record, bet: Entry)
    ensures R.Candidate(r, QueryFor(p, bet)) <==>
            && r.taskId == p.taskId && r.amount.Some?
            && -0.01 <= r.amount.value + bet.delta <= 0.01
            && -30_000_000_000 <= r.time - bet.time * 1_000_000 <= 30_000_000_000
            && r.result in {R.Unset, R.Undecided, R.Loss}
  {
  }

  function With(r: R.Record, v: Verdict): R.Record {
    r.(result := v.result, payout := v.payout, settledAt := v.settledAt)
  }

  // The record nearest in time among those the bet fits gets its verdict and no other record changes.
  lemma OneBetRecord(p: Poll, s: R.Ring, bet: Entry) returns (i: int, v: Verdict)
    requires R.IdsSorted(s)
    ensures if i < 0 then forall k | 0 <= k < |s.recs| :: !R.Candidate(s.recs[k], QueryFor(p, bet))
            else R.Nearest(s.recs, QueryFor(p, bet), i)
    ensures RightVerdict(p, bet, if i < 0 then None else Some(s.recs[i].period), v)
    ensures Credit(p, s, bet).recs == if i < 0 then s.recs else s.recs[i := With(s.recs[i], v)]
    ensures v == Decide(p, bet, MatchedPeriod(p, s.recs, bet))
  {
    i := Found(p, s.recs, bet);
    var period := if i < 0 then None else Some(s.recs[i].period);
    v := Decide(p, bet, period);
    DecidesRight(p, bet, period);
    MatchedAt(p, s, bet);
    CreditAt(p, s, bet);
    R.BestIsNearest(s.recs, QueryFor(p, bet));
    hide Decide, RightVerdict, R.Best, R.Nearest, R.Candidate, Credit, MatchedPeriod;
    if i >= 0 {
      SettledFields(s.recs[i], v, p, bet);
    }
  }

  // The summary of one bet: counted if it was placed in the window, under the heading of its verdict.
  lemma OneBetSummary(p: Poll, s: R.Ring, bet: Entry) returns (i: int, v: Verdict)
    requires R.IdsSorted(s)
    ensures if i < 0 then forall k | 0 <= k < |s.recs| :: !R.Candidate(s.recs[k], QueryFor(p, bet))
            else R.Nearest(s.recs, QueryFor(p, bet), i)
    ensures RightVerdict(p, bet, if i < 0 then None else Some(s.recs[i].period), v)
    ensures var stat := Summed(p, s, [bet]);
            if bet.time * 1_000_000 < p.start then stat == Stat(0, 0, 0, 0, 0.0, 0.0)
            else stat == Stat(1, if v.result == R.Win then 1 else 0, if v.result == R.Loss then 1 else 0,
                              if v.result == R.Undecided then 1 else 0, -bet.delta, v.payout)
  {
    i, v := OneBetRecord(p, s, bet);
    SummedOne(p, s, bet);
    DecidedKinds(p, bet, MatchedPeriod(p, s.recs, bet));
    ShareOfVerdict(p, bet, v);
    hide Decide, RightVerdict, R.Nearest, R.Candidate, MatchedPeriod, Summed, Add, Share;
  }

  lemma ShareOfVerdict(p: Poll, bet: Entry, v: Verdict)
    requires v.result in {R.Win, R.Loss, R.Undecided} && (v.result != R.Win ==> v.payout == 0.0)
    ensures Add(ZERO, Share(p, bet, v)) ==
            if bet.time * 1_000_000 < p.start then Stat(0, 0, 0, 0, 0.0, 0.0)
            else Stat(1, if v.result == R.Win then 1 else 0, if v.result == R.Loss then 1 else 0,
                      if v.result == R.Undecided then 1 else 0, -bet.delta, v.payout)
  {
  }

  lemma SummedOne(p: Poll, s: R.Ring, bet: Entry)
    ensures Summed(p, s, [bet]) == Add(ZERO, Share(p, bet, Decide(p, bet, MatchedPeriod(p, s.recs, bet))))
  {
    assert [bet][..0] == [];
    assert Summed(p, s, []) == ZERO && Credited(p, s, []) == s;
  }

  lemma DecidedKinds(p: Poll, bet: Entry, period: Option<string>)
    ensures var v := Decide(p, bet, period);
            && v.result in {R.Win, R.Loss, R.Undecided} && (v.result != R.Win ==> v.payout == 0.0)
            && (v.result == R.Undecided ==> v.settledAt == None)
  {
  }

  lemma SettledFields(r: R.Record, v: Verdict, p: Poll, bet: Entry)
    requires v == Decide(p, bet, Some(r.period))
    ensures Verdicted(p, r, bet) == With(r, v)
  {
    DecidedKinds(p, bet, Some(r.period));
    hide Decide;
  }

  // The summary is about exactly the bets placed at or after the start of the window, each once.
  lemma {:induction false} CountedIsWindow(p: Poll, bets: seq<Entry>, bet: Entry)
    ensures multiset(Counted(p, bets))[bet] == if bet.time * 1_000_000 >= p.start then multiset(bets)[bet] else 0
  {
    if bets != [] {
      var n := |bets| - 1;
      CountedIsWindow(p, bets[..n], bet);
      assert bets == bets[..n] + [bets[n]];
    }
  }

  function PaidBets(es: seq<Entry>, bets: seq<Entry>): nat {
    if bets == [] then 0
    else PaidBets(es, bets[..|bets| - 1]) + if PayoutSum(es, bets[|bets| - 1].info) > 0.0 then 1 else 0
  }

  // Its wins are the bets among them that the ledger shows paid.
  lemma {:induction false} WinsArePaid(p: Poll, s: R.Ring, bets: seq<Entry>)
    ensures Summed(p, s, bets).wins == PaidBets(p.ledger, Counted(p, bets))
  {
    hide Decide, Share, MatchedPeriod, Credited, PayoutSum, InWindow;
    if bets != [] {
      var n := |bets| - 1;
      WinsArePaid(p, s, bets[..n]);
      ShareWins(p, bets[n], MatchedPeriod(p, Credited(p, s, bets[..n]).recs, bets[n]));
      var c := Counted(p, bets[..n]);
      assert (c + [bets[n]])[..|c|] == c;
    }
  }

  lemma ShareWins(p: Poll, bet: Entry, period: Option<string>)
    ensures Share(p, bet, Decide(p, bet, period)).wins ==
            if InWindow(p, bet) && PayoutSum(p.ledger, bet.info) > 0.0 then 1 else 0
  {
    DecideWin(p, bet, period);
    hide Decide, PayoutSum;
  }
}
