/** Where the money of a poll's summary comes from: the ledger, whatever the order table holds. */
module SettleMoney {
  import opened Options
  import opened Ledger
  import opened Settlement
  import R = OrderRing

  // The bets the summary counts.
  function Counted(p: Poll, bets: seq<Entry>): seq<Entry> {
    if bets == [] then []
    else
      var n := |bets| - 1;
      if InWindow(p, bets[n]) then Counted(p, bets[..n]) + [bets[n]] else Counted(p, bets[..n])
  }

  function Deltas(bets: seq<Entry>): real {
    if bets == [] then 0.0 else Deltas(bets[..|bets| - 1]) + bets[|bets| - 1].delta
  }

  // What the poller adds up: each bet's own delta and what it takes that bet to have been paid.
  function BetSum(es: seq<Entry>, bets: seq<Entry>): real {
    if bets == [] then 0.0
    else
      var n := |bets| - 1;
      BetSum(es, bets[..n]) + bets[n].delta + Paid(es, bets[n].info)
  }

  lemma DecideWin(p: Poll, bet: Entry, period: Option<string>)
    ensures var v := Decide(p, bet, period);
            && (v.result == R.Win || v.result == R.Loss || v.result == R.Undecided)
            && (v.result == R.Win <==> PayoutSum(p.ledger, bet.info) > 0.0)
            && (if v.result == R.Win then v.payout else 0.0) == Paid(p.ledger, bet.info)
  {
  }

  // Whatever records the bets are matched to, every counted bet is one win, loss or pending, and the
  // net result is a function of the ledger alone.
  lemma {:induction false} SummaryOfLedger(p: Poll, s: R.Ring, bets: seq<Entry>)
    ensures var stat := Summed(p, s, bets);
            && stat.orders == stat.wins + stat.losses + stat.pending == |Counted(p, bets)|
            && stat.wins >= 0 && stat.losses >= 0 && stat.pending >= 0
            && Net(stat) == BetSum(p.ledger, Counted(p, bets))
            && stat.staked == -Deltas(Counted(p, bets))
  {
    if bets != [] {
      var n := |bets| - 1;
      SummaryOfLedger(p, s, bets[..n]);
      DecideWin(p, bets[n], MatchedPeriod(p, Credited(p, s, bets[..n]).recs, bets[n]));
      var c := Counted(p, bets[..n]);
      assert (c + [bets[n]])[..|c|] == c;
    }
  }

  /* ---- Conservation ---- */

  function Infos(bets: seq<Entry>): set<string> { set b | b in bets :: b.info }

  // The deltas of exactly the payout rows that belong to one of these balance infos, each row once.
  function PayoutsOf(es: seq<Entry>, infos: set<string>): real {
    if es == [] then 0.0
    else
      var e := es[|es| - 1];
      PayoutsOf(es[..|es| - 1], infos) + if e.kind == Payout && e.info in infos then e.delta else 0.0
  }

  // The change of balance the ledger shows for these bets and the payouts paired with them.
  function LedgerSum(es: seq<Entry>, bets: seq<Entry>): real { Deltas(bets) + PayoutsOf(es, Infos(bets)) }

  lemma {:induction false} PayoutsOfMore(es: seq<Entry>, infos: set<string>, info: string)
    ensures PayoutsOf(es, {}) == 0.0
    ensures PayoutsOf(es, infos + {info}) == PayoutsOf(es, infos) + if info in infos then 0.0 else PayoutSum(es, info)
  {
    if es != [] {
      PayoutsOfMore(es[..|es| - 1], infos, info);
    }
    if info in infos {
      assert infos + {info} == infos;
    }
  }

  ghost predicate PayoutsNonNegative(es: seq<Entry>) {
    forall e | e in es && e.kind == Payout :: e.delta >= 0.0
  }

  lemma {:induction false} PaidIsSum(es: seq<Entry>, info: string)
    requires PayoutsNonNegative(es)
    ensures PayoutSum(es, info) >= 0.0 && Paid(es, info) == PayoutSum(es, info)
  {
    if es != [] {
      PaidIsSum(es[..|es| - 1], info);
    }
  }

  // No balance info that was paid out is shared by two of the bets.
  ghost predicate NoSharedPayout(es: seq<Entry>, bets: seq<Entry>) {
    forall i, j | 0 <= i < j < |bets| && bets[i].info == bets[j].info :: PayoutSum(es, bets[i].info) <= 0.0
  }

  // The summary never understates, and is exact precisely when no paid balance info is shared.
  lemma {:induction false} BetSumVersusLedger(es: seq<Entry>, bets: seq<Entry>)
    requires PayoutsNonNegative(es)
    ensures BetSum(es, bets) >= LedgerSum(es, bets)
    ensures BetSum(es, bets) == LedgerSum(es, bets) <==> NoSharedPayout(es, bets)
  {
    if bets == [] {
      PayoutsOfMore(es, {}, "");
      assert Infos(bets) == {};
    } else {
      var n := |bets| - 1;
      var b := bets[n];
      BetSumVersusLedger(es, bets[..n]);
      PaidIsSum(es, b.info);
      assert bets == bets[..n] + [b];
      assert Infos(bets) == Infos(bets[..n]) + {b.info};
      PayoutsOfMore(es, Infos(bets[..n]), b.info);
      if b.info in Infos(bets[..n]) {
        var i :| 0 <= i < n && bets[..n][i].info == b.info;
        assert bets[i].info == bets[n].info;
      }
      assert NoSharedPayout(es, bets) <==>
             NoSharedPayout(es, bets[..n]) && (b.info in Infos(bets[..n]) ==> PayoutSum(es, b.info) <= 0.0) by {
        SharedSnoc(es, bets[..n], b);
      }
    }
  }

  lemma SharedSnoc(es: seq<Entry>, bets: seq<Entry>, b: Entry)
    ensures NoSharedPayout(es, bets + [b]) <==>
            NoSharedPayout(es, bets) && (b.info in Infos(bets) ==> PayoutSum(es, b.info) <= 0.0)
  {
    var all := bets + [b];
    if NoSharedPayout(es, all) {
      forall i, j | 0 <= i < j < |bets| && bets[i].info == bets[j].info
        ensures PayoutSum(es, bets[i].info) <= 0.0
      {
        assert all[i] == bets[i] && all[j] == bets[j];
      }
      if b.info in Infos(bets) {
        var i :| 0 <= i < |bets| && bets[i].info == b.info;
        assert all[i].info == all[|bets|].info;
      }
    }
  }

  // Net is conserved: with non-negative payouts it equals the ledger's own balance change for the
  // counted bets and their payouts if and only if no paid balance info is shared by two of them.
  lemma NetIsConserved(p: Poll, s: R.Ring)
    requires PayoutsNonNegative(p.ledger)
    ensures var counted := Counted(p, Bets(p.ledger));
            && Net(Summed(p, s, Bets(p.ledger))) >= LedgerSum(p.ledger, counted)
            && (Net(Summed(p, s, Bets(p.ledger))) == LedgerSum(p.ledger, counted) <==>
                NoSharedPayout(p.ledger, counted))
  {
    SummaryOfLedger(p, s, Bets(p.ledger));
    BetSumVersusLedger(p.ledger, Counted(p, Bets(p.ledger)));
  }
}
