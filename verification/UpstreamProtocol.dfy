/** The connection protocol of one upstream: `Start`, `Stop` and the reconnect loop race over the
    fields of a `Conn`. Every critical section of the program is one atomic action, so a run is any
    interleaving of callers and loop goroutines.

    `Start` creates a context and a done channel together, so one run id names both; the id indexes
    `loops`, and the done channel of a run is closed exactly when its loop is `Ended`. */
module UpstreamProtocol {
  import opened Options

  type Run = nat
  type Sock = nat
  type Caller = nat

  // Where a loop goroutine stands between two critical sections.
  datatype Pc =
    | Top                    // about to look at its context
    | Dialing                // handshake in flight, invisible to Stop
    | Dialed(sock: Sock)     // handshake done, publish check not yet made
    | Dropping(sock: Sock)   // publish check failed, socket about to be closed
    | Reading(sock: Sock)    // published, inside readLoop
    | ReadDone(sock: Sock)   // readLoop returned and closed the socket
    | Backoff                // sleeping before the next round
    | Exiting                // returning, deferred cleanup not yet run
    | Closing                // cleanup run, done channel not yet closed
    | Ended                  // done channel closed

  datatype Upstream = Upstream(
    conn: Option<Sock>,
    connected: bool,
    ctx: Option<Run>,
    running: bool,
    loopDone: Option<Run>,
    cancelled: set<Run>,
    loops: seq<Pc>,
    open: set<Sock>,         // sockets not closed on our side
    published: set<Sock>,    // history: every socket that was ever stored in conn
    nextSock: Sock,
    starters: map<Caller, Option<Run>>)  // callers inside Start, with the loopDone they read

  datatype Action =
    | StartRead(c: Caller) | StartSkip(c: Caller) | StartCommit(c: Caller)
    | Stop
    | CheckStopped(r: Run) | CheckIdle(r: Run) | CheckDial(r: Run)
    | DialFail(r: Run) | DialOk(r: Run) | Publish(r: Run) | Drop(r: Run)
    | ReadEnd(r: Run) | Clear(r: Run) | Wake(r: Run)
    | Cleanup(r: Run) | CloseDone(r: Run)

  const FRESH := Upstream(None, false, None, false, None, {}, [], {}, {}, 0, map[])

  predicate LoopAction(a: Action) {
    !a.StartRead? && !a.StartSkip? && !a.StartCommit? && !a.Stop?
  }

  predicate Enabled(u: Upstream, a: Action) {
    match a
    case StartRead(c) => c !in u.starters
    case StartSkip(c) => c in u.starters && u.starters[c].Some?
    case StartCommit(c) =>
      c in u.starters &&
      (u.starters[c].Some? ==> u.starters[c].value < |u.loops| && u.loops[u.starters[c].value].Ended?)
    case Stop => true
    case CheckStopped(r) => r < |u.loops| && u.loops[r].Top? && r in u.cancelled
    case CheckIdle(r) => r < |u.loops| && u.loops[r].Top? && r !in u.cancelled
    case CheckDial(r) => r < |u.loops| && u.loops[r].Top? && r !in u.cancelled
    case DialFail(r) => r < |u.loops| && u.loops[r].Dialing?
    case DialOk(r) => r < |u.loops| && u.loops[r].Dialing?
    case Publish(r) => r < |u.loops| && u.loops[r].Dialed?
    case Drop(r) => r < |u.loops| && u.loops[r].Dropping?
    case ReadEnd(r) => r < |u.loops| && u.loops[r].Reading?
    case Clear(r) => r < |u.loops| && u.loops[r].ReadDone?
    case Wake(r) => r < |u.loops| && u.loops[r].Backoff?
    case Cleanup(r) => r < |u.loops| && u.loops[r].Exiting?
    case CloseDone(r) => r < |u.loops| && u.loops[r].Closing?
  }

  function Cancelled(u: Upstream): set<Run> {
    u.cancelled + if u.ctx.Some? then {u.ctx.value} else {}
  }

  // Start, second critical section: a no-op while running, otherwise a fresh context and loop.
  function Commit(u: Upstream): Upstream {
    if u.running then u
    else u.(cancelled := Cancelled(u), ctx := Some(|u.loops|), running := true,
            loopDone := Some(|u.loops|), loops := u.loops + [Top])
  }

  function Halt(u: Upstream): Upstream {
    u.(cancelled := Cancelled(u), conn := None, connected := false, running := false,
       open := u.open - if u.conn.Some? then {u.conn.value} else {})
  }

  predicate MayPublish(u: Upstream, r: Run) {
    r !in u.cancelled && u.running && u.ctx == Some(r)
  }

  function Move(u: Upstream, r: Run, pc: Pc): Upstream
    requires r < |u.loops|
  {
    u.(loops := u.loops[r := pc])
  }

  function Apply(u: Upstream, a: Action): Upstream
    requires Enabled(u, a)
  {
    match a
    case StartRead(c) => u.(starters := u.starters[c := u.loopDone])
    case StartSkip(c) => u.(starters := u.starters - {c})
    case StartCommit(c) => Commit(u).(starters := u.starters - {c})
    case Stop => Halt(u)
    case CheckStopped(r) => Move(u, r, Exiting)
    case CheckIdle(r) => Move(u, r, Backoff)
    case CheckDial(r) => Move(u, r, Dialing)
    case DialFail(r) => Move(u, r, Backoff)
    case DialOk(r) => Move(u, r, Dialed(u.nextSock)).(open := u.open + {u.nextSock}, nextSock := u.nextSock + 1)
    case Publish(r) =>
      var k := u.loops[r].sock;
      if MayPublish(u, r)
      then Move(u, r, Reading(k)).(conn := Some(k), connected := true, published := u.published + {k})
      else Move(u, r, Dropping(k))
    case Drop(r) => Move(u, r, Exiting).(open := u.open - {u.loops[r].sock})
    case ReadEnd(r) => Move(u, r, ReadDone(u.loops[r].sock)).(open := u.open - {u.loops[r].sock})
    case Clear(r) =>
      if u.conn == Some(u.loops[r].sock)
      then Move(u, r, Backoff).(conn := None, connected := false)
      else Move(u, r, Backoff)
    case Wake(r) => Move(u, r, Top)
    case Cleanup(r) =>
      if u.loopDone == Some(r)
      then Move(u, r, Closing).(loopDone := None, running := false)
      else Move(u, r, Closing)
    case CloseDone(r) => Move(u, r, Ended)
  }

  /* ---- Runs ---- */

  predicate Runs(u: Upstream, acts: seq<Action>)
    decreases |acts|
  {
    acts == [] || (Enabled(u, acts[0]) && Runs(Apply(u, acts[0]), acts[1..]))
  }

  function Exec(u: Upstream, acts: seq<Action>): Upstream
    requires Runs(u, acts)
    decreases |acts|
  {
    if acts == [] then u else Exec(Apply(u, acts[0]), acts[1..])
  }

  /* ---- The invariant of every interleaving ---- */

  predicate HasSock(pc: Pc) { pc.Dialed? || pc.Dropping? || pc.Reading? || pc.ReadDone? }

  predicate Alive(pc: Pc) { !pc.Dropping? && !pc.Exiting? && !pc.Closing? && !pc.Ended? }

  // A loop that has not run its deferred cleanup.
  predicate Live(pc: Pc) { !pc.Closing? && !pc.Ended? }

  // Run ids are allocated, loopDone names the run of ctx and a live loop, and running means that
  // this loop is not on its way out and its context is uncancelled.
  ghost predicate Owned(u: Upstream) {
    && (u.ctx.Some? ==> u.ctx.value < |u.loops|)
    && (u.loopDone.Some? ==> u.ctx == u.loopDone && Live(u.loops[u.loopDone.value]))
    && (forall c | c in u.starters :: u.starters[c].Some? ==> u.starters[c].value < |u.loops|)
    && (forall r | r in u.cancelled :: r < |u.loops|)
    && (u.running ==> u.ctx.Some? && u.loopDone == u.ctx && u.ctx.value !in u.cancelled && Alive(u.loops[u.ctx.value]))
  }

  ghost predicate SocksDistinct(u: Upstream) {
    && (forall r | 0 <= r < |u.loops| && HasSock(u.loops[r]) :: u.loops[r].sock < u.nextSock)
    && (forall r, q | 0 <= r < |u.loops| && 0 <= q < |u.loops| && HasSock(u.loops[r]) && HasSock(u.loops[q]) ::
          u.loops[r].sock == u.loops[q].sock ==> r == q)
    && (forall k | k in u.open || k in u.published :: k < u.nextSock)
    && (forall r | 0 <= r < |u.loops| && (u.loops[r].Dialed? || u.loops[r].Dropping?) ::
          u.loops[r].sock !in u.published)
    && (forall r | 0 <= r < |u.loops| && u.loops[r].ReadDone? :: u.loops[r].sock !in u.open)
  }

  // The loop at `r` is the one that still has to close socket `k`.
  predicate Holds(u: Upstream, r: Run, k: Sock) {
    r < |u.loops| && (u.loops[r] == Dialed(k) || u.loops[r] == Dropping(k) || u.loops[r] == Reading(k))
  }

  ghost predicate OpenHeld(u: Upstream) {
    forall k | k in u.open :: exists r :: Holds(u, r, k)
  }

  ghost predicate ConnOwned(u: Upstream) {
    && u.connected == u.conn.Some?
    && (u.conn.Some? ==>
          u.running && u.ctx.Some? && u.ctx.value < |u.loops| && u.conn.value in u.published &&
          (u.loops[u.ctx.value] == Reading(u.conn.value) || u.loops[u.ctx.value] == ReadDone(u.conn.value)))
    && (forall k | k in u.published && k in u.open :: u.conn == Some(k))
  }

  ghost predicate Inv(u: Upstream) { Owned(u) && SocksDistinct(u) && OpenHeld(u) && ConnOwned(u) }

  lemma OwnedCallerStep(u: Upstream, a: Action)
    requires Owned(u) && Enabled(u, a) && !LoopAction(a)
    ensures Owned(Apply(u, a))
  {
  }

  // A loop whose context is current and which is not on its way out stays so in its own steps.
  lemma LoopStepShape(u: Upstream, a: Action, r: Run)
    requires Owned(u) && Enabled(u, a) && LoopAction(a) && r < |u.loops|
    ensures |Apply(u, a).loops| == |u.loops|
    ensures u.running && u.ctx == Some(r) ==> Alive(Apply(u, a).loops[r])
    ensures Live(u.loops[r]) && a != Cleanup(r) ==> Live(Apply(u, a).loops[r])
  {
  }

  lemma OwnedStep(u: Upstream, a: Action)
    requires Owned(u) && Enabled(u, a)
    ensures Owned(Apply(u, a))
  {
    if !LoopAction(a) {
      OwnedCallerStep(u, a);
    } else {
      if u.ctx.Some? {
        LoopStepShape(u, a, u.ctx.value);
      }
      LoopsKeepRunningRaw(u, a);
    }
  }

  lemma LoopsKeepRunningRaw(u: Upstream, a: Action)
    requires Owned(u) && Enabled(u, a) && LoopAction(a)
    ensures var v := Apply(u, a);
            && v.running == u.running && v.ctx == u.ctx && v.cancelled == u.cancelled && v.starters == u.starters
            && |v.loops| == |u.loops|
            && v.loopDone == if a.Cleanup? && u.loopDone == Some(a.r) then None else u.loopDone
  {
  }

  // Only a finished handshake gives a loop a socket it did not hold before.
  lemma SocksCarried(u: Upstream, a: Action, r: Run)
    requires Enabled(u, a) && r < |Apply(u, a).loops| && HasSock(Apply(u, a).loops[r])
    ensures a == DialOk(r) ||
            (r < |u.loops| && HasSock(u.loops[r]) && u.loops[r].sock == Apply(u, a).loops[r].sock)
  {
  }

  lemma SockSetsStep(u: Upstream, a: Action)
    requires SocksDistinct(u) && Enabled(u, a)
    ensures var v := Apply(u, a);
            && v.nextSock == (if a.DialOk? then u.nextSock + 1 else u.nextSock)
            && (forall k | k in v.open :: k in u.open || (a.DialOk? && k == u.nextSock))
            && (forall k | k in v.published :: k in u.published || (a.Publish? && k == u.loops[a.r].sock))
  {
  }

  // Sockets never move between loops, so an unpublished or already closed one is still that loop's.
  lemma SockStatesStep(u: Upstream, a: Action, r: Run)
    requires SocksDistinct(u) && Enabled(u, a) && r < |Apply(u, a).loops|
    ensures var v := Apply(u, a);
            && (v.loops[r].Dialed? || v.loops[r].Dropping? ==> v.loops[r].sock !in v.published)
            && (v.loops[r].ReadDone? ==> v.loops[r].sock !in v.open)
  {
    var v := Apply(u, a);
    if HasSock(v.loops[r]) {
      SocksCarried(u, a, r);
    }
  }

  lemma SocksStep(u: Upstream, a: Action)
    requires SocksDistinct(u) && Enabled(u, a)
    ensures SocksDistinct(Apply(u, a))
  {
    var v := Apply(u, a);
    SockSetsStep(u, a);
    forall r | 0 <= r < |v.loops|
      ensures HasSock(v.loops[r]) ==> v.loops[r].sock < v.nextSock
      ensures v.loops[r].Dialed? || v.loops[r].Dropping? ==> v.loops[r].sock !in v.published
      ensures v.loops[r].ReadDone? ==> v.loops[r].sock !in v.open
    {
      SockStatesStep(u, a, r);
      if HasSock(v.loops[r]) {
        SocksCarried(u, a, r);
      }
    }
    forall r, q | 0 <= r < |v.loops| && 0 <= q < |v.loops| && HasSock(v.loops[r]) && HasSock(v.loops[q])
                  && v.loops[r].sock == v.loops[q].sock
      ensures r == q
    {
      SocksCarried(u, a, r);
      SocksCarried(u, a, q);
    }
  }

  // As long as a socket stays open, the loop that has to close it is the same.
  lemma HolderStep(u: Upstream, a: Action, r: Run, k: Sock)
    requires Enabled(u, a) && Holds(u, r, k) && k in Apply(u, a).open
    ensures Holds(Apply(u, a), r, k)
  {
  }

  lemma OpenStep(u: Upstream, a: Action)
    requires SocksDistinct(u) && OpenHeld(u) && Enabled(u, a)
    ensures OpenHeld(Apply(u, a))
  {
    SockSetsStep(u, a);
    var v := Apply(u, a);
    forall k | k in v.open
      ensures exists r :: Holds(v, r, k)
    {
      if k in u.open {
        var r :| Holds(u, r, k);
        HolderStep(u, a, r, k);
      } else {
        assert a.DialOk? && Holds(v, a.r, k);
      }
    }
  }

  lemma ConnStep(u: Upstream, a: Action)
    requires Inv(u) && Enabled(u, a)
    ensures ConnOwned(Apply(u, a))
  {
  }

  lemma InvStep(u: Upstream, a: Action)
    requires Inv(u) && Enabled(u, a)
    ensures Inv(Apply(u, a))
  {
    OwnedStep(u, a);
    SocksStep(u, a);
    OpenStep(u, a);
    ConnStep(u, a);
  }

  lemma {:induction false} InvRuns(u: Upstream, acts: seq<Action>)
    requires Inv(u) && Runs(u, acts)
    ensures Inv(Exec(u, acts))
    decreases |acts|
  {
    if acts != [] {
      InvStep(u, acts[0]);
      InvRuns(Apply(u, acts[0]), acts[1..]);
    }
  }

  // Whatever Start and Stop callers do, a published socket that is still open is c.conn, is read by
  // the loop of the current, uncancelled context, and running is true; so there is at most one.
  lemma OnePublishedOpen(acts: seq<Action>, k: Sock)
    requires Runs(FRESH, acts)
    requires k in Exec(FRESH, acts).published && k in Exec(FRESH, acts).open
    ensures var u := Exec(FRESH, acts);
            && u.conn == Some(k) && u.connected && u.running
            && u.ctx.Some? && u.ctx.value !in u.cancelled && u.loopDone == u.ctx
            && u.ctx.value < |u.loops| && u.loops[u.ctx.value] == Reading(k)
            && (forall k' | k' in u.published && k' in u.open :: k' == k)
  {
    InvRuns(FRESH, acts);
  }

  // No loop gives up while it should run: only Start and Stop change running and the context, and
  // the loop of a running Conn is never on its way out.
  lemma LoopsKeepRunning(u: Upstream, a: Action)
    requires Inv(u) && Enabled(u, a) && LoopAction(a)
    ensures Apply(u, a).running == u.running && Apply(u, a).ctx == u.ctx && Apply(u, a).starters == u.starters
    ensures u.running ==> Alive(Apply(u, a).loops[u.ctx.value])
  {
    OwnedStep(u, a);
    LoopsKeepRunningRaw(u, a);
  }

  // After Stop, and until the next Start commits, nothing is published and no published socket is
  // open, even when the Stop landed during a dial or between the handshake and the publish check.
  lemma {:induction false} StoppedStaysSilent(u: Upstream, acts: seq<Action>)
    requires Inv(u) && !u.running && Runs(u, acts)
    requires forall a | a in acts :: !a.StartCommit?
    ensures var v := Exec(u, acts);
            !v.running && v.conn == None && v.published == u.published && v.published !! v.open
    decreases |acts|
  {
    if acts != [] {
      InvStep(u, acts[0]);
      StoppedStaysSilent(Apply(u, acts[0]), acts[1..]);
    }
  }

  lemma StopSilences(u: Upstream, acts: seq<Action>)
    requires Inv(u) && Runs(Apply(u, Stop), acts)
    requires forall a | a in acts :: !a.StartCommit?
    ensures var v := Exec(Apply(u, Stop), acts);
            !v.running && v.conn == None && v.published == u.published && v.published !! v.open
  {
    InvStep(u, Stop);
    StoppedStaysSilent(Apply(u, Stop), acts);
  }

  /* ---- Serialised callers: the Manager lock is held from Start's first read to its commit ---- */

  predicate SerialEnabled(u: Upstream, a: Action) {
    Enabled(u, a) && (a.StartRead? || a.Stop? ==> u.starters == map[])
  }

  predicate SerialRuns(u: Upstream, acts: seq<Action>)
    decreases |acts|
  {
    acts == [] || (SerialEnabled(u, acts[0]) && SerialRuns(Apply(u, acts[0]), acts[1..]))
  }

  // Every loop that has not run its cleanup is the one loopDone names.
  ghost predicate LoopsTracked(u: Upstream) {
    forall r | 0 <= r < |u.loops| && Live(u.loops[r]) :: u.loopDone == Some(r)
  }

  ghost predicate SerialInv(u: Upstream) {
    && Inv(u) && LoopsTracked(u)
    && (forall c, d | c in u.starters && d in u.starters :: c == d)
    && (forall c | c in u.starters :: u.loopDone == None || u.loopDone == u.starters[c])
  }

  // What makes tracking inductive: Start commits only after the loop it saw has closed its done
  // channel, and with callers serialised no other loop can have started in between.
  lemma TrackedStep(u: Upstream, a: Action)
    requires SerialInv(u) && SerialEnabled(u, a)
    ensures LoopsTracked(Apply(u, a))
  {
    hide SocksDistinct, OpenHeld, ConnOwned;
  }

  lemma SerialStep(u: Upstream, a: Action)
    requires SerialInv(u) && SerialEnabled(u, a)
    ensures SerialInv(Apply(u, a))
  {
    InvStep(u, a);
    TrackedStep(u, a);
  }

  // The loops alone: none of their steps stops the Conn, starts a run or lets a caller in.
  lemma SerialLoopStep(u: Upstream, a: Action)
    requires SerialInv(u) && Enabled(u, a) && LoopAction(a)
    ensures SerialInv(Apply(u, a))
    ensures var v := Apply(u, a);
            && v.running == u.running && v.ctx == u.ctx && v.cancelled == u.cancelled && v.starters == u.starters
            && |v.loops| == |u.loops|
  {
    SerialStep(u, a);
    OwnedStep(u, a);
    LoopsKeepRunning(u, a);
    LoopsKeepRunningRaw(u, a);
  }

  lemma {:induction false} SerialInvRuns(u: Upstream, acts: seq<Action>)
    requires SerialInv(u) && SerialRuns(u, acts)
    ensures Runs(u, acts) && SerialInv(Exec(u, acts))
    decreases |acts|
  {
    if acts != [] {
      SerialStep(u, acts[0]);
      SerialInvRuns(Apply(u, acts[0]), acts[1..]);
    }
  }

  // With Start and Stop serialised there is at most one live loop, its done channel is loopDone,
  // at most one socket is open at all (published or not), and running implies a live context.
  lemma SerialSingleLoop(acts: seq<Action>)
    requires SerialRuns(FRESH, acts)
    ensures Runs(FRESH, acts)
    ensures var u := Exec(FRESH, acts);
            && (forall r | 0 <= r < |u.loops| && Live(u.loops[r]) :: u.loopDone == Some(r))
            && (forall r, q | 0 <= r < |u.loops| && 0 <= q < |u.loops| && Live(u.loops[r]) && Live(u.loops[q]) ::
                  r == q)
            && (forall j, k | j in u.open && k in u.open :: j == k)
            && (u.running ==> u.ctx.Some? && u.ctx.value !in u.cancelled)
  {
    SerialInvRuns(FRESH, acts);
    var u := Exec(FRESH, acts);
    forall j, k | j in u.open && k in u.open
      ensures j == k
    {
      var r :| Holds(u, r, j);
      var q :| Holds(u, q, k);
    }
  }

  // Unserialised callers do not have this: two callers that both read loopDone before either
  // commits, with a Stop in between, leave an old loop winding down beside a new one.
  lemma UnserialisedLoopsOverlap() returns (acts: seq<Action>)
    ensures Runs(FRESH, acts)
    ensures var u := Exec(FRESH, acts); |u.loops| == 2 && Live(u.loops[0]) && Live(u.loops[1])
  {
    var u1 := Apply(FRESH, StartRead(0));
    var u2 := Apply(u1, StartRead(1));
    var u3 := Apply(u2, StartCommit(0));
    var u4 := Apply(u3, Stop);
    var u5 := Apply(u4, StartCommit(1));
    assert |u5.loops| == 2 && Live(u5.loops[0]) && Live(u5.loops[1]);
    assert Runs(u5, []) && Exec(u5, []) == u5;
    hide Apply, Enabled, Runs, Exec, Live;
    acts := [StartCommit(1)] + [];
    RunsCons(u4, StartCommit(1), []);
    RunsCons(u3, Stop, acts);
    acts := [Stop] + acts;
    RunsCons(u2, StartCommit(0), acts);
    acts := [StartCommit(0)] + acts;
    RunsCons(u1, StartRead(1), acts);
    acts := [StartRead(1)] + acts;
    RunsCons(FRESH, StartRead(0), acts);
    acts := [StartRead(0)] + acts;
  }

  lemma RunsCons(u: Upstream, a: Action, rest: seq<Action>)
    requires Enabled(u, a) && Runs(Apply(u, a), rest)
    ensures Runs(u, [a] + rest) && Exec(u, [a] + rest) == Exec(Apply(u, a), rest)
  {
    hide Apply, Enabled;
    assert ([a] + rest)[1..] == rest;
  }

  // Exactly when a commit keeps every live loop tracked: the Conn is already running (the commit
  // does nothing) or loopDone is nil at that moment.
  lemma CommitKeepsTrackingIff(u: Upstream, c: Caller)
    requires Inv(u) && LoopsTracked(u) && Enabled(u, StartCommit(c))
    ensures LoopsTracked(Apply(u, StartCommit(c))) <==> u.running || u.loopDone == None
  {
    var v := Apply(u, StartCommit(c));
    if !u.running {
      assert Live(v.loops[|u.loops|]);
      if u.loopDone.Some? {
        assert Live(v.loops[u.loopDone.value]);
      }
    }
  }

  // Nothing else can lose track of a loop: a cleanup that clears loopDone is that of its own loop.
  lemma OthersKeepTracking(u: Upstream, a: Action)
    requires Inv(u) && LoopsTracked(u) && Enabled(u, a) && !a.StartCommit?
    ensures LoopsTracked(Apply(u, a))
  {
    hide SocksDistinct, OpenHeld, ConnOwned;
  }

  // Every loop is tracked in every state of the run.
  ghost predicate AlwaysTracked(u: Upstream, acts: seq<Action>)
    requires Runs(u, acts)
    decreases |acts|
  {
    LoopsTracked(u) && (acts == [] || AlwaysTracked(Apply(u, acts[0]), acts[1..]))
  }

  // What a caller could check at its commits.
  predicate CommitsFind(u: Upstream, acts: seq<Action>)
    requires Runs(u, acts)
    decreases |acts|
  {
    acts == [] ||
    ((acts[0].StartCommit? ==> u.running || u.loopDone == None) && CommitsFind(Apply(u, acts[0]), acts[1..]))
  }

  // For callers of any kind, serialised or not: no loop is ever left beside the one loopDone names if
  // and only if each Start that commits finds the Conn running or loopDone nil.
  lemma {:induction false} AlwaysTrackedIff(u: Upstream, acts: seq<Action>)
    requires Inv(u) && LoopsTracked(u) && Runs(u, acts)
    ensures AlwaysTracked(u, acts) <==> CommitsFind(u, acts)
    decreases |acts|
  {
    hide Inv, LoopsTracked, Apply, Enabled;
    if acts != [] {
      var v := Apply(u, acts[0]);
      InvStep(u, acts[0]);
      if acts[0].StartCommit? {
        CommitKeepsTrackingIff(u, acts[0].c);
      } else {
        OthersKeepTracking(u, acts[0]);
      }
      if LoopsTracked(v) {
        AlwaysTrackedIff(v, acts[1..]);
      }
    }
  }

  /* ---- One upstream id over the whole life of the Manager ---- */

  // Every Conn ever created for the id; `current` is the one in the Manager's map.
  datatype Fleet = Fleet(objs: seq<Upstream>, current: Option<nat>)

  // Track and Untrack are Sync adding the id and Sync or StopAll stopping and deleting it.
  datatype FleetAction = Track | Untrack | On(i: nat, a: Action)

  predicate FleetEnabled(f: Fleet, a: FleetAction) {
    match a
    case Track => f.current == None
    case Untrack => f.current.Some? && f.current.value < |f.objs| && SerialEnabled(f.objs[f.current.value], Stop)
    case On(i, b) => i < |f.objs| && SerialEnabled(f.objs[i], b) && (LoopAction(b) || f.current == Some(i))
  }

  function FleetApply(f: Fleet, a: FleetAction): Fleet
    requires FleetEnabled(f, a)
  {
    match a
    case Track => Fleet(f.objs + [FRESH], Some(|f.objs|))
    case Untrack => var i := f.current.value; Fleet(f.objs[i := Apply(f.objs[i], Stop)], None)
    case On(i, b) => f.(objs := f.objs[i := Apply(f.objs[i], b)])
  }

  predicate FleetRuns(f: Fleet, acts: seq<FleetAction>)
    decreases |acts|
  {
    acts == [] || (FleetEnabled(f, acts[0]) && FleetRuns(FleetApply(f, acts[0]), acts[1..]))
  }

  function FleetExec(f: Fleet, acts: seq<FleetAction>): Fleet
    requires FleetRuns(f, acts)
    decreases |acts|
  {
    if acts == [] then f else FleetExec(FleetApply(f, acts[0]), acts[1..])
  }

  ghost predicate Retired(u: Upstream) { !u.running && u.starters == map[] }

  ghost predicate FleetInv(f: Fleet) {
    && (f.current.Some? ==> f.current.value < |f.objs|)
    && (forall i | 0 <= i < |f.objs| :: SerialInv(f.objs[i]))
    && (forall i | 0 <= i < |f.objs| && f.current != Some(i) :: Retired(f.objs[i]))
  }

  lemma FleetReplace(f: Fleet, i: nat, u: Upstream, current: Option<nat>)
    requires FleetInv(f) && i < |f.objs| && SerialInv(u)
    requires current == f.current || (f.current == Some(i) && current == None)
    requires current != Some(i) ==> Retired(u)
    ensures FleetInv(Fleet(f.objs[i := u], current))
  {
  }

  lemma FleetStep(f: Fleet, a: FleetAction)
    requires FleetInv(f) && FleetEnabled(f, a)
    ensures FleetInv(FleetApply(f, a))
  {
    match a
    case Track =>
    case Untrack =>
      var i := f.current.value;
      SerialStep(f.objs[i], Stop);
      FleetReplace(f, i, Apply(f.objs[i], Stop), None);
    case On(i, b) =>
      SerialStep(f.objs[i], b);
      if LoopAction(b) {
        LoopsKeepRunning(f.objs[i], b);
      }
      FleetReplace(f, i, Apply(f.objs[i], b), f.current);
  }

  lemma {:induction false} FleetInvRuns(f: Fleet, acts: seq<FleetAction>)
    requires FleetInv(f) && FleetRuns(f, acts)
    ensures FleetInv(FleetExec(f, acts))
    decreases |acts|
  {
    if acts != [] {
      FleetStep(f, acts[0]);
      FleetInvRuns(FleetApply(f, acts[0]), acts[1..]);
    }
  }

  // However often an upstream is removed and re-added while old loops wind down, at most one socket
  // of that id is both published and open, and it is the conn of the tracked Conn.
  lemma OneFeedPerUpstream(acts: seq<FleetAction>, i: nat, k: Sock, j: nat, l: Sock)
    requires FleetRuns(Fleet([], None), acts)
    requires var f := FleetExec(Fleet([], None), acts);
             && i < |f.objs| && k in f.objs[i].published && k in f.objs[i].open
             && j < |f.objs| && l in f.objs[j].published && l in f.objs[j].open
    ensures var f := FleetExec(Fleet([], None), acts);
            i == j && k == l && f.current == Some(i) && f.objs[i].conn == Some(k) && f.objs[i].running
  {
    FleetInvRuns(Fleet([], None), acts);
  }
}
