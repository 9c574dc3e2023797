/** The TurboFlow odds cache: a map of event-contract options per symbol, and an update channel that
    is closed and replaced on every push so that everybody waiting on the old one wakes up. */
module OddsBoard {
  import opened Options
  import opened Text
  import Periods

  type Channel = nat

  type Time = int

  // One contract duration; the rates as parsed from the feed's strings (None: not a number).
  datatype Offer = Offer(duration: int, upRate: Option<real>, downRate: Option<real>,
                         minAmount: string, maxAmount: string, quickEnabled: bool, status: string)

  datatype Pair = Pair(enabled: bool, offers: seq<Offer>, updatedAt: Time)

  // One row of the feed: arr pays a sell, brr pays a buy.
  datatype CfgOption = CfgOption(du: int, arr: Option<real>, brr: Option<real>,
                                 minAmt: string, maxAmt: string, qe: bool, status: string)
  datatype Payload = Payload(enabled: bool, pn: string, ocs: seq<CfgOption>)

  // A frame after JSON decoding; `payload` and `rejected` are None when their data does not parse.
  datatype Frame =
    | Unparsable
    | Subscribe(status: bool, rejected: Option<string>)
    | Data(group: string, payload: Option<Payload>)

  // `closes` is the log of every close() call on an update channel.
  datatype Board = Board(pairs: map<string, Pair>, revision: nat, updateCh: Channel, closes: seq<Channel>,
                         connected: bool, lastError: string, updatedAt: Time)

  const EMPTY := Board(map[], 0, 0, [], false, "", 0)

  function SymbolOf(group: string): string {
    if group == "evt_cfg_5" then "ETHUSDT" else if group == "evt_cfg_6" then "BTCUSDT" else ""
  }

  predicate Usable(p: Payload) { TrimSpace(p.pn) != "" || |p.ocs| > 0 }

  function OfferOf(o: CfgOption): Offer {
    Offer(o.du, o.brr, o.arr, o.minAmt, o.maxAmt, o.qe, o.status)
  }

  function Offers(ocs: seq<CfgOption>): seq<Offer> {
    seq(|ocs|, i requires 0 <= i < |ocs| => OfferOf(ocs[i]))
  }

  predicate Accepted(f: Frame) {
    f.Data? && SymbolOf(f.group) != "" && f.payload.Some? && Usable(f.payload.value)
  }

  predicate Rejection(f: Frame) { f.Subscribe? && !f.status && f.rejected.Some? }

  function RejectionText(group: string): string { "subscribe rejected: " + group }

  function Receive(b: Board, f: Frame, now: Time): Board {
    if Accepted(f) then
      var pair := Pair(f.payload.value.enabled, Offers(f.payload.value.ocs), now);
      Board(b.pairs[SymbolOf(f.group) := pair], b.revision + 1, b.updateCh + 1, b.closes + [b.updateCh], true, "", now)
    else if Rejection(f) then b.(connected := false, lastError := RejectionText(f.rejected.value), updatedAt := now)
    else b
  }

  /** Every channel before the current one was closed, in order and once; the current one is open. */
  ghost predicate Ordered(b: Board) {
    |b.closes| == b.updateCh == b.revision && forall i | 0 <= i < |b.closes| :: b.closes[i] == i
  }

  // In particular no channel is closed twice, which would be a panic.
  lemma ReceiveOrdered(b: Board, f: Frame, now: Time)
    requires Ordered(b)
    ensures Ordered(Receive(b, f, now))
    ensures b.updateCh !in b.closes
    ensures forall c: Channel | c < Receive(b, f, now).updateCh :: c in Receive(b, f, now).closes
  {
    var after := Receive(b, f, now);
    forall c: Channel | c < after.updateCh
      ensures c in after.closes
    {
      assert after.closes[c] == c;
    }
  }

  class Service {
    var pairs: map<string, Pair>
    var revision: nat
    var updateCh: Channel
    var closes: seq<Channel>
    var connected: bool
    var lastError: string
    var updatedAt: Time

    function View(): Board
      reads this
    {
      Board(pairs, revision, updateCh, closes, connected, lastError, updatedAt)
    }

    constructor ()
      ensures View() == EMPTY && Ordered(View())
    {
      pairs, revision, updateCh, closes := map[], 0, 0, [];
      connected, lastError, updatedAt := false, "", 0;
    }

    method NotifyLocked()
      requires Ordered(View())
      modifies this`revision, this`updateCh, this`closes
      ensures updateCh == old(updateCh) + 1 && closes == old(closes) + [old(updateCh)] && revision == old(revision) + 1
    {
      revision := revision + 1;
      var previous := updateCh;
      updateCh := updateCh + 1;
      assert previous !in closes;  // close(previous) does not panic
      closes := closes + [previous];
    }

    method SetError(msg: string, now: Time)
      modifies this`connected, this`lastError, this`updatedAt
      ensures View() == old(View()).(connected := false, lastError := msg, updatedAt := now)
    {
      connected := false;
      lastError := msg;
      updatedAt := now;
    }

    method HandleMessage(f: Frame, now: Time)
      requires Ordered(View())
      modifies this
      ensures View() == Receive(old(View()), f, now) && Ordered(View())
    {
      if f.Subscribe? {
        if !f.status {
          if f.rejected.Some? {
            SetError(RejectionText(f.rejected.value), now);
          }
        }
        return;
      }
      if !f.Data? {
        return;
      }
      var symbol := SymbolOf(f.group);
      if symbol == "" || f.payload == None || !Usable(f.payload.value) {
        return;
      }
      var rows := f.payload.value.ocs;
      var options: seq<Offer> := [];
      for i := 0 to |rows|
        invariant options == Offers(rows)[..i]
      {
        options := options + [OfferOf(rows[i])];
      }
      assert options == Offers(rows);
      ReceiveOrdered(View(), f, now);
      pairs := pairs[symbol := Pair(f.payload.value.enabled, options, now)];
      updatedAt := now;
      connected := true;
      lastError := "";
      NotifyLocked();
    }
  }

  /* ---- What a waiter reads ---- */

  datatype Request = Request(symbol: string, period: string, action: string)

  function ParseOdds(v: Option<real>): (odds: real)
    ensures odds >= 0.0
  {
    if v == None || v.value <= 0.0 then 0.0 else v.value
  }

  function PeriodSeconds(period: string): int {
    var p := ToLower(TrimSpace(period));
    if p == "30s" then 30 else if p == "45s" then 45 else if p == "1m" then 60 else if p == "3m" then 180
    else if p == "5m" then 300 else if p == "10m" then 600 else if p == "15m" then 900
    else if p == "30m" then 1800 else if p == "1h" then 3600 else if p == "2h" then 7200
    else if p == "4h" then 14400 else 0
  }

  // A traded period is as long as its text says; no other has an offer.
  lemma PeriodSecondsAreTraded(period: string)
    ensures PeriodSeconds(period) == if Periods.IsTraded(period) then Periods.Seconds(period) else 0
  {
    hide TrimSpace, ToLower;
    if Periods.IsTraded(period) {
      Periods.SecondsOf(Periods.Plain(period), period);
    }
  }

  // The first offer of the wanted duration decides.
  function RateAmong(offers: seq<Offer>, secs: int, action: string): real {
    if offers == [] then 0.0
    else if offers[0].duration != secs then RateAmong(offers[1..], secs, action)
    else if EqualFold(action, "buy") then ParseOdds(offers[0].upRate)
    else if EqualFold(action, "sell") then ParseOdds(offers[0].downRate)
    else RateAmong(offers[1..], secs, action)
  }

  function Rate(b: Board, req: Request): real {
    var symbol := ToUpper(TrimSpace(req.symbol));
    if symbol !in b.pairs || PeriodSeconds(req.period) == 0 then 0.0
    else RateAmong(b.pairs[symbol].offers, PeriodSeconds(req.period), req.action)
  }

  method CurrentDirectionOdds(s: Service, req: Request) returns (rate: real)
    ensures rate == Rate(s.View(), req)
  {
    var symbol := ToUpper(TrimSpace(req.symbol));
    if symbol !in s.pairs {
      return 0.0;
    }
    var secs := PeriodSeconds(req.period);
    if secs == 0 {
      return 0.0;
    }
    var offers := s.pairs[symbol].offers;
    for i := 0 to |offers|
      invariant RateAmong(offers, secs, req.action) == RateAmong(offers[i..], secs, req.action)
    {
      assert offers[i..][1..] == offers[i + 1..];
      if offers[i].duration != secs {
        continue;
      }
      if EqualFold(req.action, "buy") {
        return ParseOdds(offers[i].upRate);
      }
      if EqualFold(req.action, "sell") {
        return ParseOdds(offers[i].downRate);
      }
    }
    return 0.0;
  }

  // A push is read back by the requests of its own symbol: a buy is paid at brr, a sell at arr.
  lemma {:induction false} RateOfOffers(ocs: seq<CfgOption>, k: nat, action: string)
    requires k < |ocs| && (EqualFold(action, "buy") || EqualFold(action, "sell"))
    requires forall i | 0 <= i < k :: ocs[i].du != ocs[k].du
    ensures RateAmong(Offers(ocs), ocs[k].du, action) ==
            if EqualFold(action, "buy") then ParseOdds(ocs[k].brr) else ParseOdds(ocs[k].arr)
  {
    assert Offers(ocs)[1..] == Offers(ocs[1..]);
    if k > 0 {
      RateOfOffers(ocs[1..], k - 1, action);
    }
  }

  // The feed's two groups and the symbols they quote.
  predicate Quotes(group: string, symbol: string) {
    (group == "evt_cfg_5" && symbol == "ETHUSDT") || (group == "evt_cfg_6" && symbol == "BTCUSDT")
  }

  // The first offer of a duration.
  ghost predicate FirstOf(ocs: seq<CfgOption>, k: nat, seconds: int) {
    k < |ocs| && ocs[k].du == seconds && forall i | 0 <= i < k :: ocs[i].du != seconds
  }

  // A push is what the next order of its symbol, written in any case, reads: for a traded period, the
  // rate of the first row of that length, paid at brr for a buy and at arr for a sell, and nothing for a
  // rate that is no positive number.
  lemma PushIsReadBack(b: Board, group: string, symbol: string, payload: Payload, now: Time,
                       asked: string, period: string, action: string, k: nat)
    requires Quotes(group, symbol) && ToUpper(TrimSpace(asked)) == symbol && Periods.IsTraded(period)
    requires FirstOf(payload.ocs, k, Periods.Seconds(period))
    requires EqualFold(action, "buy") || EqualFold(action, "sell")
    ensures var rate := if EqualFold(action, "buy") then payload.ocs[k].brr else payload.ocs[k].arr;
            Rate(Receive(b, Data(group, Some(payload)), now), Request(asked, period, action)) ==
            if rate.Some? && rate.value > 0.0 then rate.value else 0.0
  {
    PeriodSecondsAreTraded(period);
    SecondsPositive(period);
    hide PeriodSeconds, Periods.Seconds, Periods.IsTraded, TrimSpace, ToUpper, EqualFold;
    RateOfOffers(payload.ocs, k, action);
  }

  lemma SecondsPositive(period: string)
    requires Periods.IsTraded(period)
    ensures Periods.Seconds(period) > 0
  {
    var p := Periods.Plain(period);
    hide Periods.Plain;
    Periods.SecondsOf(p, period);
    PositiveNumber(p);
  }

  lemma PositiveNumber(p: string)
    requires p in Periods.TRADED
    ensures |p| >= 2 && '1' <= p[0] <= '9' && (|p| == 3 ==> '0' <= p[1] <= '9')
  {
  }

  // What each frame does to the service: only a push with a pair name or rows changes odds, and only
  // those of its own symbol; it clears the error. A rejected subscription is the error, and keeps the odds.
  lemma FramesAct(b: Board, f: Frame, now: Time, symbol: string)
    ensures var c := Receive(b, f, now);
            && (f == Unparsable ==> c == b)
            && (f.Subscribe? && !f.status && f.rejected.Some? ==>
                  c.pairs == b.pairs && c.updateCh == b.updateCh && c.revision == b.revision && !c.connected
                  && c.lastError == "subscribe rejected: " + f.rejected.value && c.updatedAt == now)
            && (f.Subscribe? && (f.status || f.rejected == None) ==> c == b)
            && (f.Data? && (f.payload == None || !(f.group == "evt_cfg_5" || f.group == "evt_cfg_6")) ==> c == b)
            && (f.Data? && f.payload.Some? && f.payload.value.ocs == [] && TrimSpace(f.payload.value.pn) == "" ==>
                  c == b)
            && (f.Data? && f.payload.Some? && Quotes(f.group, symbol) &&
                (f.payload.value.ocs != [] || TrimSpace(f.payload.value.pn) != "") ==>
                  && symbol in c.pairs && c.pairs[symbol].updatedAt == now && c.pairs - {symbol} == b.pairs - {symbol}
                  && c.pairs[symbol].enabled == f.payload.value.enabled
                  && |c.pairs[symbol].offers| == |f.payload.value.ocs|
                  && c.connected && c.lastError == "" && c.updatedAt == now && c.updateCh == b.updateCh + 1)
  {
    hide TrimSpace;
  }

  // Every column of a row arrives where it belongs.
  lemma RowsArrive(ocs: seq<CfgOption>, k: nat)
    requires k < |ocs|
    ensures |Offers(ocs)| == |ocs|
    ensures var c := ocs[k];
            Offers(ocs)[k] == Offer(c.du, c.brr, c.arr, c.minAmt, c.maxAmt, c.qe, c.status)
  {
  }
}
