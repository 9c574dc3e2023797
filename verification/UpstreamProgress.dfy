/** What the connection protocol can still do in every reachable state: a running Conn can connect, a
    stopped one lets its loop go and can be started again, and a loop waits between its dials. */
module UpstreamProgress {
  import opened Options
  import opened UpstreamProtocol

  /* ---- What a running Conn can do ---- */

  // A step of the loop of run r.
  predicate OwnStep(a: Action, r: Run) { LoopAction(a) && a.r == r }

  predicate OwnSteps(acts: seq<Action>, r: Run) { forall i | 0 <= i < |acts| :: OwnStep(acts[i], r) }

  lemma {:induction false} RunsAppend(u: Upstream, a: seq<Action>, b: seq<Action>)
    requires Runs(u, a) && Runs(Exec(u, a), b)
    ensures Runs(u, a + b) && Exec(u, a + b) == Exec(Exec(u, a), b)
    decreases |a|
  {
    hide Apply, Enabled;
    if a == [] {
      assert a + b == b;
    } else {
      RunsAppend(Apply(u, a[0]), a[1..], b);
      assert (a + b)[1..] == a[1..] + b;
    }
  }

  lemma RunsOne(u: Upstream, a: Action)
    requires Enabled(u, a)
    ensures Runs(u, [a]) && Exec(u, [a]) == Apply(u, a)
  {
    hide Apply, Enabled;
    assert Runs(Apply(u, a), []) && Exec(Apply(u, a), []) == Apply(u, a);
    RunsCons(u, a, []);
    assert [a] + [] == [a];
  }

  // Connected by the loop of run r: its socket is published, open and the Conn's own.
  predicate ConnectedBy(u: Upstream, r: Run) {
    && u.conn.Some? && u.connected && u.conn.value in u.published && u.conn.value in u.open
    && r < |u.loops| && u.loops[r] == Reading(u.conn.value)
  }

  // The loop of a running Conn, at its top: its dial can get a handshake done with a socket of its own.
  lemma HandshakeFromTop(u: Upstream)
    requires Owned(u) && u.running && u.loops[u.ctx.value] == Top
    ensures var r := u.ctx.value;
            Enabled(u, CheckDial(r)) && Enabled(Apply(u, CheckDial(r)), DialOk(r))
    ensures var r := u.ctx.value; var v := Apply(Apply(u, CheckDial(r)), DialOk(r));
            && v.loops == u.loops[r := Dialed(u.nextSock)] && v.open == u.open + {u.nextSock}
            && v.running && v.ctx == u.ctx && v.cancelled == u.cancelled && v.published == u.published
  {
  }

  lemma PublishAfterHandshake(v: Upstream, r: Run, k: Sock)
    requires r < |v.loops| && v.loops[r] == Dialed(k) && k in v.open
    requires v.running && v.ctx == Some(r) && r !in v.cancelled
    ensures Enabled(v, Publish(r))
    ensures var w := Apply(v, Publish(r)); ConnectedBy(w, r) && w.conn == Some(k) && w.running && w.ctx == v.ctx
  {
  }

  // A running Conn whose loop is at its top can dial, finish the handshake and publish: a socket that
  // was not open before then is its connection.
  lemma RunningCanPublish(u: Upstream)
    requires Inv(u) && u.running && u.loops[u.ctx.value] == Top
    ensures var r := u.ctx.value; var acts := [CheckDial(r), DialOk(r), Publish(r)];
            && Runs(u, acts) && ConnectedBy(Exec(u, acts), r)
            && Exec(u, acts).running && Exec(u, acts).ctx == u.ctx
            && Exec(u, acts).conn.value !in u.open && Exec(u, acts).conn.value !in u.published
  {
    var r := u.ctx.value;
    HandshakeFromTop(u);
    var u1 := Apply(u, CheckDial(r));
    var u2 := Apply(u1, DialOk(r));
    PublishAfterHandshake(u2, r, u.nextSock);
    assert u.nextSock !in u.open && u.nextSock !in u.published;
    hide Apply, Enabled, Inv, ConnectedBy, Runs, Exec;
    RunsOne(u2, Publish(r));
    RunsCons(u1, DialOk(r), [Publish(r)]);
    RunsCons(u, CheckDial(r), [DialOk(r)] + [Publish(r)]);
    assert [CheckDial(r)] + ([DialOk(r)] + [Publish(r)]) == [CheckDial(r), DialOk(r), Publish(r)];
  }

  // How far the loop is from its top.
  function Rank(pc: Pc): nat {
    match pc
    case Top => 0
    case Backoff => 1
    case ReadDone(_) => 2
    case Reading(_) => 3
    case Dialed(_) => 4
    case Dialing => 2
    case _ => 0
  }

  function TowardsTop(pc: Pc, r: Run): Action {
    match pc
    case Backoff => Wake(r)
    case ReadDone(_) => Clear(r)
    case Reading(_) => ReadEnd(r)
    case Dialed(_) => Publish(r)
    case _ => DialFail(r)
  }

  lemma StepTowardsTop(u: Upstream, r: Run)
    requires Inv(u) && u.running && u.ctx == Some(r) && u.loops[r] != Top
    ensures var a := TowardsTop(u.loops[r], r);
            Enabled(u, a) && OwnStep(a, r) && Rank(Apply(u, a).loops[r]) < Rank(u.loops[r])
  {
  }

  // Wherever its loop stands, it can get back to its top by itself.
  lemma {:induction false} RunningReachesTop(u: Upstream) returns (acts: seq<Action>)
    requires Inv(u) && u.running
    ensures OwnSteps(acts, u.ctx.value) && Runs(u, acts)
    ensures var v := Exec(u, acts); Inv(v) && v.running && v.ctx == u.ctx && v.loops[v.ctx.value] == Top
    decreases Rank(u.loops[u.ctx.value])
  {
    var r := u.ctx.value;
    if u.loops[r] == Top {
      acts := [];
    } else {
      var a := TowardsTop(u.loops[r], r);
      StepTowardsTop(u, r);
      hide TowardsTop, Enabled, Apply;
      InvStep(u, a);
      LoopsKeepRunning(u, a);
      var rest := RunningReachesTop(Apply(u, a));
      acts := [a] + rest;
      RunsCons(u, a, rest);
    }
  }

  // From every reachable state of a running Conn its own loop alone can connect it anew.
  lemma RunningCanConnect(acts: seq<Action>) returns (more: seq<Action>)
    requires Runs(FRESH, acts) && Exec(FRESH, acts).running
    ensures var u := Exec(FRESH, acts);
            && u.ctx.Some? && OwnSteps(more, u.ctx.value) && Runs(u, more)
            && var v := Exec(u, more); v.running && v.ctx == u.ctx && ConnectedBy(v, u.ctx.value)
  {
    InvRuns(FRESH, acts);
    var u := Exec(FRESH, acts);
    var back := RunningReachesTop(u);
    var top := Exec(u, back);
    var r := u.ctx.value;
    RunningCanPublish(top);
    RunsAppend(u, back, [CheckDial(r), DialOk(r), Publish(r)]);
    more := back + [CheckDial(r), DialOk(r), Publish(r)];
  }

  /* ---- What a stopped loop does ---- */

  // The context of a run is cancelled exactly when it is not the current run of a running Conn.
  ghost predicate CancelledIff(u: Upstream) {
    forall r | 0 <= r < |u.loops| :: r in u.cancelled <==> !(u.running && u.ctx == Some(r))
  }

  lemma CancelledStep(u: Upstream, a: Action)
    requires Inv(u) && CancelledIff(u) && Enabled(u, a)
    ensures CancelledIff(Apply(u, a))
  {
    hide SocksDistinct, OpenHeld, ConnOwned;
    if LoopAction(a) {
      LoopsKeepRunningRaw(u, a);
      LoopsKeepRunning(u, a);
    }
  }

  lemma {:induction false} CancelledRuns(u: Upstream, acts: seq<Action>)
    requires Inv(u) && CancelledIff(u) && Runs(u, acts)
    ensures Inv(Exec(u, acts)) && CancelledIff(Exec(u, acts))
    decreases |acts|
  {
    hide Apply, Enabled, Inv, CancelledIff;
    if acts != [] {
      InvStep(u, acts[0]);
      CancelledStep(u, acts[0]);
      CancelledRuns(Apply(u, acts[0]), acts[1..]);
    }
  }

  // In every reachable state only the loop of a running Conn may dial: every other one, once it is
  // back at its top, can only leave.
  lemma OnlyCurrentDials(acts: seq<Action>, r: Run)
    requires Runs(FRESH, acts)
    ensures var u := Exec(FRESH, acts);
            && (Enabled(u, CheckDial(r)) ==> u.running && u.ctx == Some(r))
            && (Enabled(u, CheckStopped(r)) ==> !(u.running && u.ctx == Some(r)))
  {
    CancelledRuns(FRESH, acts);
  }

  // Steps left until the done channel is closed.
  function Left(pc: Pc): nat {
    match pc
    case Ended => 0
    case Closing => 1
    case Exiting => 2
    case Dropping(_) => 3
    case Top => 3
    case Dialed(_) => 7
    case Backoff => 4
    case ReadDone(_) => 5
    case Dialing => 8
    case Reading(_) => 6
  }

  function TowardsEnd(pc: Pc, r: Run): Action {
    match pc
    case Closing => CloseDone(r)
    case Exiting => Cleanup(r)
    case Dropping(_) => Drop(r)
    case Top => CheckStopped(r)
    case Dialed(_) => Publish(r)
    case Backoff => Wake(r)
    case ReadDone(_) => Clear(r)
    case Reading(_) => ReadEnd(r)
    case _ => DialFail(r)
  }

  lemma StepTowardsEnd(u: Upstream, r: Run)
    requires Inv(u) && r < |u.loops| && u.loops[r] != Ended && r in u.cancelled
    ensures var a := TowardsEnd(u.loops[r], r);
            && Enabled(u, a) && OwnStep(a, r) && !a.CheckDial? && Left(Apply(u, a).loops[r]) < Left(u.loops[r])
            && Apply(u, a).cancelled == u.cancelled && |Apply(u, a).loops| == |u.loops|
            && Apply(u, a).starters == u.starters
  {
  }

  // A loop whose context is cancelled can finish by itself, without dialling again; a Start that waits
  // for it then goes on.
  lemma {:induction false} CancelledLoopEnds(u: Upstream, r: Run) returns (acts: seq<Action>)
    requires Inv(u) && CancelledIff(u) && r < |u.loops| && r in u.cancelled
    ensures OwnSteps(acts, r) && Runs(u, acts) && forall i | 0 <= i < |acts| :: !acts[i].CheckDial?
    ensures var v := Exec(u, acts);
            && Inv(v) && CancelledIff(v) && |v.loops| == |u.loops| && v.loops[r] == Ended && v.starters == u.starters
    decreases Left(u.loops[r])
  {
    if u.loops[r] == Ended {
      acts := [];
    } else {
      var a := TowardsEnd(u.loops[r], r);
      StepTowardsEnd(u, r);
      hide TowardsEnd, Enabled, Apply, Left;
      InvStep(u, a);
      CancelledStep(u, a);
      var rest := CancelledLoopEnds(Apply(u, a), r);
      acts := [a] + rest;
      RunsCons(u, a, rest);
    }
  }

  // Whatever happened before, a stopped Conn can be started again: its loop, if any, can finish while a
  // caller waits for it, and then the caller's commit leaves the Conn running under a new run.
  lemma StoppedCanRestart(acts: seq<Action>, c: Caller) returns (more: seq<Action>)
    requires Runs(FRESH, acts) && !Exec(FRESH, acts).running && c !in Exec(FRESH, acts).starters
    ensures var u := Exec(FRESH, acts);
            && Runs(u, [StartRead(c)]) && Runs(Exec(u, [StartRead(c)]), more)
            && var v := Exec(Exec(u, [StartRead(c)]), more);
               && Enabled(v, StartCommit(c))
               && Apply(v, StartCommit(c)).ctx == Some(|u.loops|) && Apply(v, StartCommit(c)).running
  {
    CancelledRuns(FRESH, acts);
    var u := Exec(FRESH, acts);
    RunsOne(u, StartRead(c));
    var w := Apply(u, StartRead(c));
    InvStep(u, StartRead(c));
    CancelledStep(u, StartRead(c));
    assert w.starters[c] == u.loopDone;
    if u.loopDone.Some? {
      more := CancelledLoopEnds(w, u.loopDone.value);
      OwnStepsNeverStart(w, more, u.loopDone.value);
    } else {
      more := [];
    }
  }

  lemma {:induction false} OwnStepsNeverStart(u: Upstream, acts: seq<Action>, r: Run)
    requires Inv(u) && OwnSteps(acts, r) && Runs(u, acts)
    ensures Exec(u, acts).running == u.running && |Exec(u, acts).loops| == |u.loops|
    decreases |acts|
  {
    hide Apply, Enabled, Inv;
    if acts != [] {
      assert OwnStep(acts[0], r);
      InvStep(u, acts[0]);
      LoopsKeepRunning(u, acts[0]);
      LoopCount(u, acts[0]);
      assert OwnSteps(acts[1..], r);
      OwnStepsNeverStart(Apply(u, acts[0]), acts[1..], r);
    }
  }

  lemma LoopCount(u: Upstream, a: Action)
    requires Inv(u) && Enabled(u, a) && LoopAction(a)
    ensures |Apply(u, a).loops| == |u.loops|
  {
    LoopsKeepRunningRaw(u, a);
  }

  /* ---- Waiting between dials ---- */

  // Only waking up from the backoff brings a loop back to its top.
  lemma OnlyWakeReturns(u: Upstream, a: Action, r: Run)
    requires Enabled(u, a) && r < |u.loops| && u.loops[r] != Top && a != Wake(r)
    ensures r < |Apply(u, a).loops| && Apply(u, a).loops[r] != Top
  {
  }

  lemma {:induction false} NoWakeNoTop(u: Upstream, acts: seq<Action>, r: Run)
    requires Runs(u, acts) && r < |u.loops| && u.loops[r] != Top && Wake(r) !in acts
    ensures r < |Exec(u, acts).loops| && Exec(u, acts).loops[r] != Top
    decreases |acts|
  {
    hide Apply, Enabled;
    if acts != [] {
      assert acts[0] in acts;
      OnlyWakeReturns(u, acts[0], r);
      NoWakeNoTop(Apply(u, acts[0]), acts[1..], r);
    }
  }

  // A loop never dials twice without having waited in between, however its dials end.
  lemma DialsAreSpaced(u: Upstream, r: Run, between: seq<Action>)
    requires Runs(u, [CheckDial(r)] + between) && Enabled(Exec(u, [CheckDial(r)] + between), CheckDial(r))
    ensures Wake(r) in between
  {
    assert ([CheckDial(r)] + between)[1..] == between;
    var v := Apply(u, CheckDial(r));
    assert r < |v.loops| && v.loops[r] != Top;
    if Wake(r) !in between {
      NoWakeNoTop(v, between, r);
    }
  }
}
