/** Waiting for odds: any number of orders wait for their own threshold while the feed pushes. A
    waiter subscribes to the update channel before it reads the odds, and then blocks in a select on
    that channel, its timer and its context. Every read of the board is one atomic action. */
module OddsWait {
  import opened Options
  import opened OddsBoard

  datatype Pc =
    | First                 // about to make the immediate check
    | Subscribing           // top of the wait loop
    | Checking(ch: Channel) // holds the update channel, odds not yet read
    | Blocked(ch: Channel)  // in the select
    | Placed                // PlaceOrder called, wait over
    | Quit                  // context ended first

  // `orders` counts the waiter's PlaceOrder calls.
  datatype Waiter = Waiter(req: Request, threshold: real, pc: Pc, orders: nat)

  datatype World = World(board: Board, waiters: seq<Waiter>)

  datatype Action =
    | Push(f: Frame, now: Time) | Arrive(req: Request, threshold: real)
    | Look(w: nat) | TakeChannel(w: nat) | Check(w: nat)
    | Wake(w: nat) | Timeout(w: nat) | Cancel(w: nat)

  const START := World(EMPTY, [])

  predicate Enabled(s: World, a: Action) {
    match a
    case Push(_, _) => true
    case Arrive(_, _) => true
    case Look(w) => w < |s.waiters| && s.waiters[w].pc.First?
    case TakeChannel(w) => w < |s.waiters| && s.waiters[w].pc.Subscribing?
    case Check(w) => w < |s.waiters| && s.waiters[w].pc.Checking?
    case Wake(w) => w < |s.waiters| && s.waiters[w].pc.Blocked? && s.waiters[w].pc.ch in s.board.closes
    case Timeout(w) => w < |s.waiters| && s.waiters[w].pc.Blocked?
    case Cancel(w) => w < |s.waiters| && s.waiters[w].pc.Blocked?
  }

  function At(s: World, w: nat, pc: Pc): World
    requires w < |s.waiters|
  {
    s.(waiters := s.waiters[w := s.waiters[w].(pc := pc)])
  }

  function Place(s: World, w: nat): World
    requires w < |s.waiters|
  {
    s.(waiters := s.waiters[w := s.waiters[w].(pc := Placed, orders := s.waiters[w].orders + 1)])
  }

  predicate Reached(s: World, w: nat)
    requires w < |s.waiters|
  {
    Rate(s.board, s.waiters[w].req) >= s.waiters[w].threshold
  }

  function Apply(s: World, a: Action): World
    requires Enabled(s, a)
  {
    match a
    case Push(f, now) => s.(board := Receive(s.board, f, now))
    case Arrive(req, threshold) => s.(waiters := s.waiters + [Waiter(req, threshold, First, 0)])
    case Look(w) => if s.waiters[w].threshold <= 0.0 || Reached(s, w) then Place(s, w) else At(s, w, Subscribing)
    case TakeChannel(w) => At(s, w, Checking(s.board.updateCh))
    case Check(w) => if Reached(s, w) then Place(s, w) else At(s, w, Blocked(s.waiters[w].pc.ch))
    case Wake(w) => At(s, w, Subscribing)
    case Timeout(w) => Place(s, w)
    case Cancel(w) => At(s, w, Quit)
  }

  predicate Runs(s: World, acts: seq<Action>)
    decreases |acts|
  {
    acts == [] || (Enabled(s, acts[0]) && Runs(Apply(s, acts[0]), acts[1..]))
  }

  function Exec(s: World, acts: seq<Action>): World
    requires Runs(s, acts)
    decreases |acts|
  {
    if acts == [] then s else Exec(Apply(s, acts[0]), acts[1..])
  }

  ghost predicate WaiterInv(b: Board, w: Waiter) {
    && w.orders == (if w.pc.Placed? then 1 else 0)
    && (w.pc.Checking? || w.pc.Blocked? ==> w.pc.ch <= b.updateCh)
    && (w.pc.Blocked? && w.pc.ch == b.updateCh ==> Rate(b, w.req) < w.threshold)
  }

  ghost predicate Inv(s: World) {
    Ordered(s.board) && forall i | 0 <= i < |s.waiters| :: WaiterInv(s.board, s.waiters[i])
  }

  lemma InvStep(s: World, a: Action)
    requires Inv(s) && Enabled(s, a)
    ensures Inv(Apply(s, a))
  {
    if a.Push? {
      ReceiveOrdered(s.board, a.f, a.now);
    }
  }

  lemma {:induction false} InvRuns(s: World, acts: seq<Action>)
    requires Inv(s) && Runs(s, acts)
    ensures Inv(Exec(s, acts))
    decreases |acts|
  {
    if acts != [] {
      InvStep(s, acts[0]);
      InvRuns(Apply(s, acts[0]), acts[1..]);
    }
  }

  // No lost wake-up: in every reachable state a waiter blocked on a channel that is still open would
  // not be satisfied by the odds now in the cache, and every older channel has been closed.
  lemma NoLostWakeup(acts: seq<Action>, i: nat)
    requires Runs(START, acts) && i < |Exec(START, acts).waiters|
    ensures var s := Exec(START, acts); var w := s.waiters[i];
            w.pc.Blocked? ==> (w.pc.ch in s.board.closes <==> w.pc.ch != s.board.updateCh)
                              && (w.pc.ch !in s.board.closes ==> Rate(s.board, w.req) < w.threshold)
  {
    InvRuns(START, acts);
    var s := Exec(START, acts);
    if s.waiters[i].pc.Blocked? && s.waiters[i].pc.ch != s.board.updateCh {
      assert WaiterInv(s.board, s.waiters[i]);
      assert s.board.closes[s.waiters[i].pc.ch] == s.waiters[i].pc.ch;
    }
  }

  // Every update channel is closed at most once, and all but the current one exactly once.
  lemma ClosedOnce(acts: seq<Action>, c: Channel)
    requires Runs(START, acts)
    ensures var b := Exec(START, acts).board;
            multiset(b.closes)[c] == if c < b.updateCh then 1 else 0
  {
    InvRuns(START, acts);
    CountOrdered(Exec(START, acts).board.closes, c);
  }

  lemma {:induction false} CountOrdered(closes: seq<Channel>, c: Channel)
    requires forall i | 0 <= i < |closes| :: closes[i] == i
    ensures multiset(closes)[c] == if c < |closes| then 1 else 0
  {
    if closes != [] {
      var n := |closes| - 1;
      assert closes == closes[..n] + [n];
      CountOrdered(closes[..n], c);
    }
  }

  // One wait calls PlaceOrder exactly once unless its context ended, and then never.
  lemma OneOrderPerWait(acts: seq<Action>, i: nat)
    requires Runs(START, acts) && i < |Exec(START, acts).waiters|
    ensures var w := Exec(START, acts).waiters[i];
            w.orders <= 1 && (w.pc.Placed? <==> w.orders == 1)
  {
    InvRuns(START, acts);
    assert WaiterInv(Exec(START, acts).board, Exec(START, acts).waiters[i]);
  }

  // Nothing leaves Placed or Quit, so those counts are final.
  lemma WaitsEndOnce(s: World, a: Action, i: nat)
    requires Enabled(s, a) && i < |s.waiters| && (s.waiters[i].pc.Placed? || s.waiters[i].pc.Quit?)
    ensures i < |Apply(s, a).waiters| && Apply(s, a).waiters[i] == s.waiters[i]
  {
  }

  // Exactly which steps make a waiter's order: its timeout, or a look at odds that reach its threshold,
  // or its very first look if it has no threshold.
  lemma PlacesExactlyWhen(s: World, a: Action, i: nat)
    requires Inv(s) && Enabled(s, a) && i < |s.waiters| && s.waiters[i].orders == 0
    ensures i < |Apply(s, a).waiters|
    ensures Apply(s, a).waiters[i].orders == 1 <==>
            || a == Timeout(i)
            || ((a == Look(i) || a == Check(i)) && Rate(s.board, s.waiters[i].req) >= s.waiters[i].threshold)
            || (a == Look(i) && s.waiters[i].threshold <= 0.0)
  {
  }

  // A waiter that has just arrived with a positive threshold and odds below it starts to wait.
  lemma FirstLookWaits(acts: seq<Action>, req: Request, threshold: real)
    requires Runs(START, acts) && threshold > 0.0 && Rate(Exec(START, acts).board, req) < threshold
    ensures var s := Apply(Exec(START, acts), Arrive(req, threshold)); var i := |Exec(START, acts).waiters|;
            && i < |s.waiters| && s.waiters[i].req == req && s.waiters[i].threshold == threshold
            && Enabled(s, Look(i))
            && Apply(s, Look(i)).waiters[i].orders == 0 && Apply(s, Look(i)).waiters[i].pc != Quit
            && Enabled(Apply(s, Look(i)), TakeChannel(i))
            && Enabled(Apply(Apply(s, Look(i)), TakeChannel(i)), Check(i))
            && Enabled(Apply(Apply(Apply(s, Look(i)), TakeChannel(i)), Check(i)), Timeout(i))
            && Enabled(Apply(Apply(Apply(s, Look(i)), TakeChannel(i)), Check(i)), Cancel(i))
  {
  }

  // A wait is given up in no other way than by its context.
  lemma QuitsOnlyByContext(s: World, a: Action, i: nat)
    requires Enabled(s, a) && i < |s.waiters| && s.waiters[i].pc != Quit
    ensures i < |Apply(s, a).waiters|
    ensures Apply(s, a).waiters[i].pc == Quit <==> a == Cancel(i)
    ensures Apply(s, a).waiters[i].req == s.waiters[i].req && Apply(s, a).waiters[i].threshold == s.waiters[i].threshold
  {
  }

  // The reason of an order, in the state in which it was made.
  ghost predicate Reason(s: World, a: Action, i: nat) {
    i < |s.waiters| &&
    (a == Timeout(i) || s.waiters[i].threshold <= 0.0 || Rate(s.board, s.waiters[i].req) >= s.waiters[i].threshold)
  }

  lemma {:induction false} ExecSnoc(s: World, acts: seq<Action>)
    requires Runs(s, acts) && acts != []
    ensures Runs(s, acts[..|acts| - 1]) && Enabled(Exec(s, acts[..|acts| - 1]), acts[|acts| - 1])
    ensures Exec(s, acts) == Apply(Exec(s, acts[..|acts| - 1]), acts[|acts| - 1])
    decreases |acts|
  {
    hide Apply, Enabled;
    var n := |acts| - 1;
    if n == 0 {
      assert Exec(Apply(s, acts[0]), []) == Apply(s, acts[0]);
    } else {
      ExecSnoc(Apply(s, acts[0]), acts[1..]);
      assert acts[1..][..n - 1] == acts[..n][1..];
    }
  }

  lemma ArrivesWithoutOrder(s: World, a: Action, i: nat)
    requires Enabled(s, a) && |s.waiters| <= i < |Apply(s, a).waiters|
    ensures Apply(s, a).waiters[i].orders == 0
  {
  }

  // Over every run: an order that was placed was placed at one step of the run with a reason.
  lemma {:induction false} EveryOrderHasAReason(acts: seq<Action>, i: nat) returns (k: nat)
    requires Runs(START, acts) && i < |Exec(START, acts).waiters| && Exec(START, acts).waiters[i].orders == 1
    ensures k < |acts| && Runs(START, acts[..k]) && Reason(Exec(START, acts[..k]), acts[k], i)
    decreases |acts|
  {
    hide Apply, Enabled, Inv, Runs, Exec;
    assert acts != [] by { NobodyAtTheStart(acts); }
    var n := |acts| - 1;
    ExecSnoc(START, acts);
    var s := Exec(START, acts[..n]);
    ReachableInv(acts[..n]);
    if i < |s.waiters| {
      OrdersAreCounted(s, i);
      if s.waiters[i].orders == 1 {
        k := EveryOrderHasAReason(acts[..n], i);
        assert acts[..n][..k] == acts[..k];
      } else {
        PlacesExactlyWhen(s, acts[n], i);
        k := n;
      }
    } else {
      ArrivesWithoutOrder(s, acts[n], i);
    }
  }

  lemma ReachableInv(acts: seq<Action>)
    requires Runs(START, acts)
    ensures Inv(Exec(START, acts))
  {
    InvRuns(START, acts);
  }

  lemma NobodyAtTheStart(acts: seq<Action>)
    requires Runs(START, acts)
    ensures acts == [] ==> |Exec(START, acts).waiters| == 0
  {
  }

  lemma OrdersAreCounted(s: World, i: nat)
    requires Inv(s) && i < |s.waiters|
    ensures s.waiters[i].orders == 0 || s.waiters[i].orders == 1
  {
    assert WaiterInv(s.board, s.waiters[i]);
  }

  // Once the cached odds satisfy a blocked waiter it can wake, and without a further push its next
  // round places the order.
  lemma WakeupPlaces(acts: seq<Action>, i: nat)
    requires Runs(START, acts) && i < |Exec(START, acts).waiters|
    requires Exec(START, acts).waiters[i].pc.Blocked? && Reached(Exec(START, acts), i)
    ensures var s := Exec(START, acts);
            && Enabled(s, Wake(i))
            && Runs(s, [Wake(i), TakeChannel(i), Check(i)])
            && var t := Exec(s, [Wake(i), TakeChannel(i), Check(i)]);
               |t.waiters| == |s.waiters| && t.board == s.board && t.waiters[i].pc == Placed
  {
    NoLostWakeup(acts, i);
    var s := Exec(START, acts);
    var s1 := Apply(s, Wake(i));
    var s2 := Apply(s1, TakeChannel(i));
    var s3 := Apply(s2, Check(i));
    assert s3.waiters[i].pc == Placed;
    assert Runs(s3, []) && Exec(s3, []) == s3;
    hide Apply, Enabled, Reached;
    assert [Wake(i), TakeChannel(i), Check(i)] == [Wake(i)] + ([TakeChannel(i)] + ([Check(i)] + []));
    RunsCons(s2, Check(i), []);
    RunsCons(s1, TakeChannel(i), [Check(i)] + []);
    RunsCons(s, Wake(i), [TakeChannel(i)] + ([Check(i)] + []));
  }

  lemma RunsCons(s: World, a: Action, rest: seq<Action>)
    requires Enabled(s, a) && Runs(Apply(s, a), rest)
    ensures Runs(s, [a] + rest) && Exec(s, [a] + rest) == Exec(Apply(s, a), rest)
  {
    hide Apply, Enabled;
    assert ([a] + rest)[1..] == rest;
  }
}
