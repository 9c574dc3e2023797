/** The Binance event-contract ledger as the settlement poller sees it: fetching it page by page, and
    the payouts and bets that can be read off it. Money is real-valued. */
module Ledger {
  import opened Options

  datatype Kind = OrderDebit | Payout | OtherKind

  // `time` is in milliseconds, as sent.
  datatype Entry = Entry(tranId: int, kind: Kind, delta: real, info: string, time: int)

  const ROWS_PER_PAGE := 100
  const MAX_PAGES := 5

  /* ---- Fetching ---- */

  datatype Reply = Failed | Page(code: string, data: seq<Entry>, total: int)

  predicate Good(r: Reply) { r.Page? && r.code == "000000" }

  predicate IsLast(r: Reply, page: nat)
    requires r.Page?
  {
    |r.data| < ROWS_PER_PAGE || (r.total > 0 && page * ROWS_PER_PAGE >= r.total)
  }

  predicate Seen(es: seq<Entry>, tranId: int) { exists e | e in es :: e.tranId == tranId }

  // First occurrence of every transaction, in order.
  function Dedup(es: seq<Entry>): seq<Entry> {
    if es == [] then []
    else
      var d := Dedup(es[..|es| - 1]);
      if Seen(d, es[|es| - 1].tranId) then d else d + [es[|es| - 1]]
  }

  ghost predicate DistinctIds(es: seq<Entry>) {
    forall i, j | 0 <= i < j < |es| :: es[i].tranId != es[j].tranId
  }

  // However pages overlap, every transaction of the input is kept exactly once.
  lemma {:induction false} DedupOnce(es: seq<Entry>)
    ensures DistinctIds(Dedup(es))
    ensures forall e | e in Dedup(es) :: e in es
    ensures forall e | e in es :: Seen(Dedup(es), e.tranId)
  {
    if es != [] {
      var n := |es| - 1;
      DedupOnce(es[..n]);
      var d := Dedup(es[..n]);
      assert es == es[..n] + [es[n]];
      forall e | e in es
        ensures Seen(Dedup(es), e.tranId)
      {
        if e in es[..n] {
          var f :| f in d && f.tranId == e.tranId;
          assert f in Dedup(es);
        } else if !Seen(d, e.tranId) {
          assert e in d + [e];
        }
      }
    }
  }

  lemma {:induction false} DedupAppend(a: seq<Entry>, e: Entry)
    ensures Dedup(a + [e]) == if Seen(Dedup(a), e.tranId) then Dedup(a) else Dedup(a) + [e]
  {
    assert (a + [e])[..|a|] == a;
  }

  // The rows of pages 1 to n.
  function Rows(pages: nat -> Reply, n: nat): seq<Entry> {
    if n == 0 then [] else Rows(pages, n - 1) + if pages(n).Page? then pages(n).data else []
  }

  // The rows of one more page, with those already kept left out.
  method AppendPage(kept: seq<Entry>, seen: set<int>, data: seq<Entry>, ghost before: seq<Entry>)
    returns (kept': seq<Entry>, seen': set<int>)
    requires kept == Dedup(before) && forall t :: t in seen <==> Seen(kept, t)
    ensures kept' == Dedup(before + data) && forall t :: t in seen' <==> Seen(kept', t)
  {
    hide Dedup;
    kept', seen' := kept, seen;
    assert before + data[..0] == before;
    for i := 0 to |data|
      invariant kept' == Dedup(before + data[..i])
      invariant forall t :: t in seen' <==> Seen(kept', t)
    {
      var e := data[i];
      DedupAppend(before + data[..i], e);
      assert before + data[..i + 1] == before + data[..i] + [e];
      if e.tranId !in seen' {
        seen' := seen' + {e.tranId};
        kept' := kept' + [e];
      }
    }
    assert data[..|data|] == data;
  }

  lemma NothingKept()
    ensures Dedup([]) == [] && forall t :: !Seen([], t)
  {
  }

  /** Pages 1 to `used` were read: all but the last were good and not final, and the ledger is their
      rows with every transaction once. Any bad page makes the fetch fail. */
  method FetchLedger(pages: nat -> Reply) returns (out: Option<seq<Entry>>, used: nat)
    ensures 1 <= used <= MAX_PAGES
    ensures forall p | 1 <= p < used :: Good(pages(p)) && !IsLast(pages(p), p)
    ensures out.Some? <==> Good(pages(used))
    ensures out.Some? ==> out.value == Dedup(Rows(pages, used)) && (used == MAX_PAGES || IsLast(pages(used), used))
  {
    hide Dedup, Seen;
    var kept: seq<Entry> := [];
    var seen: set<int> := {};
    used := 0;
    NothingKept();
    while used < MAX_PAGES
      invariant used <= MAX_PAGES
      invariant kept == Dedup(Rows(pages, used))
      invariant forall t :: t in seen <==> Seen(kept, t)
      invariant forall p | 1 <= p <= used :: Good(pages(p)) && !IsLast(pages(p), p)
    {
      used := used + 1;
      var reply := pages(used);
      if !Good(reply) {
        return None, used;
      }
      kept, seen := AppendPage(kept, seen, reply.data, Rows(pages, used - 1));
      if IsLast(reply, used) {
        return Some(kept), used;
      }
    }
    return Some(kept), used;
  }

  /* ---- What a fetch brings in ---- */

  // A server that serves a ledger in full pages, with or without saying how long it is.
  function PageRows(all: seq<Entry>, n: nat): seq<Entry> {
    if n == 0 || 100 * (n - 1) >= |all| then []
    else if 100 * n >= |all| then all[100 * (n - 1)..]
    else all[100 * (n - 1)..100 * n]
  }

  ghost predicate Serves(pages: nat -> Reply, all: seq<Entry>, total: int) {
    (total == 0 || total == |all|) && forall n: nat | n >= 1 :: pages(n) == Page("000000", PageRows(all, n), total)
  }

  function FirstPages(all: seq<Entry>, n: nat): seq<Entry> { if 100 * n >= |all| then all else all[..100 * n] }

  lemma PageExtends(all: seq<Entry>, n: nat)
    requires n > 0
    ensures FirstPages(all, n) == FirstPages(all, n - 1) + PageRows(all, n)
    ensures |PageRows(all, n)| <= 100 && (|PageRows(all, n)| == 100 <==> 100 * n <= |all|)
  {
  }

  lemma {:induction false} RowsServed(pages: nat -> Reply, all: seq<Entry>, total: int, n: nat)
    requires Serves(pages, all, total)
    ensures Rows(pages, n) == FirstPages(all, n)
  {
    hide PageRows, FirstPages;
    if n == 0 {
      NoPages(all);
    } else {
      RowsServed(pages, all, total, n - 1);
      assert pages(n) == Page("000000", PageRows(all, n), total);
      PageExtends(all, n);
    }
  }

  lemma NoPages(all: seq<Entry>)
    ensures FirstPages(all, 0) == []
  {
  }

  // Pages are read as long as there may be more rows and no longer; a sixth is never read.
  predicate PagesNeeded(rows: nat, total: int, used: nat) {
    && 1 <= used <= 5
    && (used < 5 ==> rows < 100 * used || (total > 0 && rows == 100 * used))
    && (used > 1 ==> rows > 100 * (used - 1) || (total == 0 && rows == 100 * (used - 1)))
  }

  // Up to five hundred rows a ledger is fetched whole, every transaction once; of a longer one the first
  // five hundred rows are.
  lemma FetchedWhole(pages: nat -> Reply, all: seq<Entry>, total: int, out: Option<seq<Entry>>, used: nat)
    requires Serves(pages, all, total)
    requires 1 <= used <= MAX_PAGES
    requires forall p | 1 <= p < used :: Good(pages(p)) && !IsLast(pages(p), p)
    requires out.Some? <==> Good(pages(used))
    requires out.Some? ==> out.value == Dedup(Rows(pages, used)) && (used == MAX_PAGES || IsLast(pages(used), used))
    ensures out == Some(Dedup(if |all| <= 500 then all else all[..500]))
    ensures PagesNeeded(|all|, total, used)
  {
    hide Dedup, PageRows, Rows;
    assert pages(used) == Page("000000", PageRows(all, used), total);
    RowsServed(pages, all, total, used);
    PageExtends(all, used);
    if used > 1 {
      assert pages(used - 1) == Page("000000", PageRows(all, used - 1), total);
      PageExtends(all, used - 1);
    }
  }

  method FetchServed(pages: nat -> Reply, ghost all: seq<Entry>, ghost total: int)
    returns (out: Option<seq<Entry>>, used: nat)
    requires Serves(pages, all, total)
    ensures out == Some(Dedup(if |all| <= 500 then all else all[..500])) && PagesNeeded(|all|, total, used)
  {
    out, used := FetchLedger(pages);
    FetchedWhole(pages, all, total, out, used);
  }

  /* ---- Payouts ---- */

  function PayoutSum(es: seq<Entry>, info: string): real {
    if es == [] then 0.0
    else
      var e := es[|es| - 1];
      PayoutSum(es[..|es| - 1], info) + if e.kind == Payout && e.info == info then e.delta else 0.0
  }

  function PayoutTime(es: seq<Entry>, info: string): int {
    if es == [] then 0
    else
      var e := es[|es| - 1];
      var t := PayoutTime(es[..|es| - 1], info);
      if e.kind == Payout && e.info == info && e.time > t then e.time else t
  }

  lemma {:induction false} PayoutSumWithout(es: seq<Entry>, k: nat, info: string)
    requires k < |es|
    ensures PayoutSum(es, info) == PayoutSum(es[..k] + es[k + 1..], info)
                                   + if es[k].kind == Payout && es[k].info == info then es[k].delta else 0.0
  {
    var n := |es| - 1;
    var rest := es[..k] + es[k + 1..];
    if k == n {
      assert rest == es[..n];
    } else {
      PayoutSumWithout(es[..n], k, info);
      assert es[..n][..k] + es[..n][k + 1..] == rest[..n - 1];
      assert rest[n - 1] == es[n];
    }
  }

  lemma {:induction false} PayoutTimeIsLatest(es: seq<Entry>, info: string)
    ensures PayoutTime(es, info) >= 0
    ensures forall e | e in es && e.kind == Payout && e.info == info :: e.time <= PayoutTime(es, info)
    ensures PayoutTime(es, info) == 0 ||
            exists e :: e in es && e.kind == Payout && e.info == info && e.time == PayoutTime(es, info)
  {
    if es != [] {
      var n := |es| - 1;
      PayoutTimeIsLatest(es[..n], info);
      assert es == es[..n] + [es[n]];
      assert es[n] in es;
    }
  }

  // Neither depends on the order of the ledger.
  lemma {:induction false} PayoutsPermuted(a: seq<Entry>, b: seq<Entry>, info: string)
    requires multiset(a) == multiset(b)
    ensures PayoutSum(a, info) == PayoutSum(b, info) && PayoutTime(a, info) == PayoutTime(b, info)
  {
    PayoutSumPermuted(a, b, info);
    PayoutTimeIsLatest(a, info);
    PayoutTimeIsLatest(b, info);
    assert forall e | e in a :: e in multiset(b);
    assert forall e | e in b :: e in multiset(a);
  }

  // Where the last element of one listing stands in another, and what remains of both without it.
  lemma LastOf<T>(a: seq<T>, b: seq<T>) returns (k: nat)
    requires multiset(a) == multiset(b) && a != []
    ensures k < |b| && b[k] == a[|a| - 1]
    ensures multiset(a[..|a| - 1]) == multiset(b[..k] + b[k + 1..])
  {
    var n := |a| - 1;
    assert a == a[..n] + [a[n]];
    assert a[n] in multiset(b);
    k :| 0 <= k < |b| && b[k] == a[n];
    assert b == b[..k] + [b[k]] + b[k + 1..];
    calc {
      multiset(a[..n]);
      multiset(a) - multiset{a[n]};
      multiset(b) - multiset{b[k]};
      multiset(b[..k] + b[k + 1..]);
    }
  }

  lemma {:induction false} PayoutSumPermuted(a: seq<Entry>, b: seq<Entry>, info: string)
    requires multiset(a) == multiset(b)
    ensures PayoutSum(a, info) == PayoutSum(b, info)
    decreases |a|
  {
    if a == [] {
      assert |multiset(b)| == |b|;
    } else {
      var k := LastOf(a, b);
      PayoutSumWithout(b, k, info);
      PayoutSumPermuted(a[..|a| - 1], b[..k] + b[k + 1..], info);
    }
  }

  // What the poller takes an order with this balance info to have been paid.
  function Paid(es: seq<Entry>, info: string): real {
    var p := PayoutSum(es, info);
    if p > 0.0 then p else 0.0
  }

  /* ---- Bets ---- */

  predicate Debited(es: seq<Entry>, n: nat, tranId: int)
    requires n <= |es|
  {
    exists j | 0 <= j < n :: es[j].kind == OrderDebit && es[j].tranId == tranId
  }

  // The order debits the poller settles: each transaction once, with a positive amount.
  predicate IsBet(es: seq<Entry>, i: nat)
    requires i < |es|
  {
    es[i].kind == OrderDebit && !Debited(es, i, es[i].tranId) && es[i].delta < 0.0
  }

  function Bets(es: seq<Entry>): (bets: seq<Entry>) {
    if es == [] then []
    else
      var n := |es| - 1;
      Bets(es[..n]) + if IsBet(es, n) then [es[n]] else []
  }

  // On a ledger with every transaction once, the bets are simply its order debits with an amount.
  lemma {:induction false} BetsOfDistinct(es: seq<Entry>, e: Entry)
    requires DistinctIds(es)
    ensures multiset(Bets(es))[e] == if e in es && e.kind == OrderDebit && e.delta < 0.0 then 1 else 0
    decreases |es|
  {
    if es != [] {
      var n := |es| - 1;
      BetsOfDistinct(es[..n], e);
      assert es == es[..n] + [es[n]];
      assert es[n] !in es[..n];
    }
  }

  lemma BetsPermuted(a: seq<Entry>, b: seq<Entry>)
    requires DistinctIds(a) && DistinctIds(b) && multiset(a) == multiset(b)
    ensures multiset(Bets(a)) == multiset(Bets(b))
  {
    forall e: Entry
      ensures multiset(Bets(a))[e] == multiset(Bets(b))[e]
    {
      BetsOfDistinct(a, e);
      BetsOfDistinct(b, e);
      assert e in a <==> e in multiset(a);
      assert e in b <==> e in multiset(b);
    }
  }
}
