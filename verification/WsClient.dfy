/** The upstream client: one `Conn` object per upstream, whose methods are the critical sections of
    the protocol, and the `Manager` that reconciles the tracked Conns with the configuration. */
module WsClient {
  import opened Options
  import P = UpstreamProtocol

  datatype UpstreamConfig = UpstreamConfig(id: string, name: string, wsUrl: string, wsKey: string, enabled: bool)

  class Conn {
    const ID: string
    var Name: string
    var URL: string
    var Key: string

    var conn: Option<P.Sock>
    var connected: bool
    var ctx: Option<P.Run>
    var running: bool
    var loopDone: Option<P.Run>

    // The runtime around the object: contexts, goroutines, sockets and callers inside Start.
    var cancelled: set<P.Run>
    var loops: seq<P.Pc>
    var open: set<P.Sock>
    var published: set<P.Sock>
    var nextSock: P.Sock
    var starters: map<P.Caller, Option<P.Run>>

    function View(): P.Upstream
      reads this
    {
      P.Upstream(conn, connected, ctx, running, loopDone, cancelled, loops, open, published, nextSock, starters)
    }

    // No caller is inside Start: what holds whenever the Manager's lock is free.
    ghost predicate Ready()
      reads this
    {
      P.SerialInv(View()) && starters == map[]
    }

    predicate Carries(u: UpstreamConfig)
      reads this
    {
      URL == u.wsUrl && Key == u.wsKey && Name == u.name
    }

    constructor (u: UpstreamConfig)
      ensures ID == u.id && Carries(u) && View() == P.FRESH && Ready()
    {
      ID, Name, URL, Key := u.id, u.name, u.wsUrl, u.wsKey;
      conn, connected, ctx, running, loopDone := None, false, None, false, None;
      cancelled, loops, open, published, nextSock, starters := {}, [], {}, {}, 0, map[];
    }

    method Stop()
      modifies this`cancelled, this`open, this`conn, this`connected, this`running
      ensures View() == P.Apply(old(View()), P.Stop)
    {
      if ctx.Some? {
        cancelled := cancelled + {ctx.value};
      }
      if conn.Some? {
        open := open - {conn.value};
        conn := None;
      }
      connected := false;
      running := false;
    }

    // Stop under the Manager's lock.
    method Halt()
      requires Ready()
      modifies this`cancelled, this`open, this`conn, this`connected, this`running
      ensures Ready() && !running && conn == None
    {
      P.SerialStep(View(), P.Stop);
      Stop();
    }

    // The second critical section of Start, and the launch of the new loop.
    method StartCommit(c: P.Caller)
      requires P.Enabled(View(), P.StartCommit(c))
      modifies this`cancelled, this`ctx, this`running, this`loopDone, this`loops, this`starters
      ensures View() == P.Apply(old(View()), P.StartCommit(c))
    {
      starters := starters - {c};
      if running {
        return;
      }
      if ctx.Some? {
        cancelled := cancelled + {ctx.value};
      }
      var run := |loops|;
      ctx := Some(run);
      running := true;
      loopDone := Some(run);
      loops := loops + [P.Top];
    }

    // The loop's check between a finished handshake and publishing the socket.
    method Publish(r: P.Run)
      requires P.Enabled(View(), P.Publish(r))
      modifies this`conn, this`connected, this`loops, this`published
      ensures View() == P.Apply(old(View()), P.Publish(r))
    {
      var k := loops[r].sock;
      if r in cancelled || !running || ctx != Some(r) {
        loops := loops[r := P.Dropping(k)];
        return;
      }
      conn := Some(k);
      connected := true;
      loops := loops[r := P.Reading(k)];
      published := published + {k};
    }

    // After readLoop has returned.
    method Clear(r: P.Run)
      requires P.Enabled(View(), P.Clear(r))
      modifies this`conn, this`connected, this`loops
      ensures View() == P.Apply(old(View()), P.Clear(r))
    {
      if conn == Some(loops[r].sock) {
        conn := None;
        connected := false;
      }
      loops := loops[r := P.Backoff];
    }

    // The loop's deferred cleanup.
    method Cleanup(r: P.Run)
      requires P.Enabled(View(), P.Cleanup(r))
      modifies this`loopDone, this`running, this`loops
      ensures View() == P.Apply(old(View()), P.Cleanup(r))
    {
      if loopDone == Some(r) {
        loopDone := None;
        running := false;
      }
      loops := loops[r := P.Closing];
    }

    // One step of some loop goroutine.
    method LoopStep(a: P.Action)
      requires P.SerialInv(View()) && P.LoopAction(a) && P.Enabled(View(), a)
      modifies this`conn, this`connected, this`running, this`loopDone,
               this`loops, this`open, this`published, this`nextSock
      ensures View() == P.Apply(old(View()), a)
      ensures P.SerialInv(View())
      ensures running == old(running) && starters == old(starters) && ctx == old(ctx) && |loops| == |old(loops)|
    {
      hide P.SerialInv, P.Enabled, P.Apply;
      P.SerialLoopStep(View(), a);
      var v := P.Apply(View(), a);
      conn, connected, running, loopDone := v.conn, v.connected, v.running, v.loopDone;
      loops, open, published, nextSock := v.loops, v.open, v.published, v.nextSock;
    }

    // Whatever the loop goroutines do while a caller is waiting.
    method LoopsRun()
      requires P.SerialInv(View())
      modifies this`conn, this`connected, this`running, this`loopDone,
               this`loops, this`open, this`published, this`nextSock
      ensures P.SerialInv(View())
      ensures running == old(running) && starters == old(starters) && ctx == old(ctx) && |loops| == |old(loops)|
    {
      var steps: nat := *;
      while steps > 0
        invariant P.SerialInv(View())
        invariant running == old(running) && starters == old(starters) && ctx == old(ctx) && |loops| == |old(loops)|
      {
        var a: P.Action := *;
        if P.LoopAction(a) && P.Enabled(View(), a) {
          LoopStep(a);
        }
        steps := steps - 1;
      }
    }

    // The first critical section of Start.
    method StartRead() returns (prev: Option<P.Run>)
      requires Ready()
      modifies this`starters
      ensures View() == P.Apply(old(View()), P.StartRead(0)) && prev == loopDone
      ensures P.SerialInv(View())
    {
      P.SerialStep(View(), P.StartRead(0));
      prev := loopDone;
      starters := starters[0 := prev];
    }

    // The bounded wait for the previous loop; `closed` is its done channel winning the select.
    method AwaitPrevious(prev: P.Run) returns (closed: bool)
      requires P.SerialInv(View()) && starters == map[0 := Some(prev)]
      modifies this`conn, this`connected, this`running, this`loopDone,
               this`loops, this`open, this`published, this`nextSock
      ensures P.SerialInv(View()) && prev < |loops| && (closed ==> loops[prev] == P.Ended)
      ensures running == old(running) && starters == old(starters) && ctx == old(ctx) && |loops| == |old(loops)|
    {
      LoopsRun();
      assert 0 in starters;
      var expired: bool := *;
      closed := !expired && loops[prev] == P.Ended;
    }

    /** Start under the Manager's lock: skipped when the previous loop does not close its done channel
        in time, otherwise the Conn is running afterwards, under a new run unless it already was. */
    method Start() returns (skipped: bool)
      requires Ready()
      modifies this`conn, this`connected, this`ctx, this`running, this`loopDone,
               this`cancelled, this`loops, this`open, this`published, this`nextSock, this`starters
      ensures Ready()
      ensures skipped ==> old(loopDone).Some?
      ensures running == (old(running) || !skipped)
      ensures if old(running) || skipped then ctx == old(ctx) && |loops| == |old(loops)|
              else ctx == loopDone == Some(|old(loops)|) && |loops| == |old(loops)| + 1
    {
      hide P.Owned, P.SocksDistinct, P.OpenHeld, P.ConnOwned, P.LoopsTracked;
      var prev := StartRead();
      if prev.Some? {
        var closed := AwaitPrevious(prev.value);
        if !closed {
          P.SerialStep(View(), P.StartSkip(0));
          starters := starters - {0};
          return true;
        }
      }
      P.SerialStep(View(), P.StartCommit(0));
      StartCommit(0);
      return false;
    }
  }

  /* ---- Sync ---- */

  // The last entry of each non-empty id.
  function Want(ups: seq<UpstreamConfig>): (want: map<string, UpstreamConfig>)
    ensures forall id | id in want :: want[id].id == id && id != ""
  {
    if ups == [] then map[]
    else
      var u := ups[|ups| - 1];
      var rest := Want(ups[..|ups| - 1]);
      if u.id == "" then rest else rest[u.id := u]
  }

  // What Sync achieves for a Conn it already tracked: its fields are the configured ones; a run under
  // another URL, key or name is over, one under the same three goes on if it is enabled, and an enabled
  // Conn with no loop winding down runs.
  predicate UpdatedFrom(c: Conn, u: UpstreamConfig, url: string, key: string, name: string,
                        ran: bool, ctx: Option<P.Run>, idle: bool)
    reads c
  {
    && c.URL == u.wsUrl && c.Key == u.wsKey && c.Name == u.name && (c.running ==> u.enabled)
    && (ran && (url != u.wsUrl || key != u.wsKey || name != u.name) ==> !(c.running && c.ctx == ctx))
    && (ran && url == u.wsUrl && key == u.wsKey && name == u.name && u.enabled ==> c.running && c.ctx == ctx)
    && (u.enabled && idle ==> c.running)
  }

  twostate predicate Updated(c: Conn, u: UpstreamConfig)
    reads c
  {
    UpdatedFrom(c, u, old(c.URL), old(c.Key), old(c.Name), old(c.running), old(c.ctx), old(c.loopDone) == None)
  }

  // The last entry with this id.
  ghost predicate LastEntry(ups: seq<UpstreamConfig>, i: int, id: string) {
    0 <= i < |ups| && ups[i].id == id && forall j | i < j < |ups| :: ups[j].id != id
  }

  lemma {:induction false} WantIsLastEntry(ups: seq<UpstreamConfig>, i: int, id: string)
    requires LastEntry(ups, i, id)
    ensures id != "" ==> id in Want(ups) && Want(ups)[id] == ups[i]
    ensures "" !in Want(ups)
  {
    var n := |ups| - 1;
    if i < n {
      WantIsLastEntry(ups[..n], i, id);
    }
  }

  lemma {:induction false} WantedIsConfigured(ups: seq<UpstreamConfig>, id: string)
    requires id in Want(ups)
    ensures id != "" && exists i :: LastEntry(ups, i, id) && Want(ups)[id] == ups[i]
  {
    var n := |ups| - 1;
    if ups[n].id == id {
      assert LastEntry(ups, n, id);
    } else {
      WantedIsConfigured(ups[..n], id);
      var i: int :| LastEntry(ups[..n], i, id) && Want(ups[..n])[id] == ups[i];
      assert LastEntry(ups, i, id);
    }
  }

  // The configuration by id, as Sync gathers it.
  method GatherWanted(ups: seq<UpstreamConfig>) returns (want: map<string, UpstreamConfig>)
    ensures want == Want(ups)
  {
    want := map[];
    for i := 0 to |ups|
      invariant want == Want(ups[..i])
    {
      assert ups[..i + 1][..i] == ups[..i];
      if ups[i].id == "" {
        continue;
      }
      want := want[ups[i].id := ups[i]];
    }
    assert ups[..|ups|] == ups;
  }

  // Not touched while its id is still to come, brought up to date afterwards.
  twostate predicate Handled(c: Conn, u: UpstreamConfig, later: bool)
    reads c
  {
    if later then unchanged(c) else Updated(c, u)
  }

  predicate Launched(c: Conn, u: UpstreamConfig)
    reads c
  {
    c.URL == u.wsUrl && c.Key == u.wsKey && c.Name == u.name && (c.running <==> u.enabled && u.wsUrl != "")
  }

  class Manager {
    var conns: map<string, Conn>

    ghost predicate Valid()
      reads this, conns.Values
    {
      forall id | id in conns :: conns[id].ID == id && conns[id].Ready()
    }

    // Tracking matches the configuration: what Sync leaves behind.
    ghost predicate Settled(ups: seq<UpstreamConfig>)
      reads this, conns.Values
    {
      && conns.Keys == Want(ups).Keys
      && forall id | id in conns :: conns[id].Carries(Want(ups)[id]) && (conns[id].running ==> Want(ups)[id].enabled)
    }

    constructor ()
      ensures Valid() && conns == map[]
    {
      conns := map[];
    }

    method SyncExisting(c: Conn, u: UpstreamConfig)
      requires c.Ready()
      modifies c
      ensures c.Ready() && Updated(c, u)
    {
      var changed := !c.Carries(u);
      c.Name, c.URL, c.Key := u.name, u.wsUrl, u.wsKey;
      if changed {
        c.Halt();
      }
      if u.enabled && !c.running {
        var _ := c.Start();
      } else if !u.enabled && c.running {
        c.Halt();
      }
    }

    method SyncNew(u: UpstreamConfig) returns (c: Conn)
      ensures fresh(c) && c.ID == u.id && c.Ready() && c.Carries(u)
      ensures c.running <==> u.enabled && u.wsUrl != ""
    {
      c := new Conn(u);
      if u.enabled && u.wsUrl != "" {
        var _ := c.Start();
      }
    }

    // First half of Sync: stop and forget every Conn that is no longer configured.
    method DropGone(want: map<string, UpstreamConfig>)
      requires Valid()
      modifies this, conns.Values
      ensures Valid() && conns == map id | id in old(conns) && id in want :: old(conns)[id]
      ensures forall id | id in conns :: unchanged(conns[id])
      ensures forall id | id in old(conns) && id !in want ::
                !old(conns)[id].running && old(conns)[id].conn == None
    {
      hide P.SerialInv, Conn.Ready, Conn.View;
      var gone := conns.Keys - want.Keys;
      while gone != {}
        invariant gone <= old(conns).Keys - want.Keys
        invariant conns == old(conns)
        invariant Valid()
        invariant forall id | id in old(conns) && id !in want && id !in gone ::
                    !old(conns)[id].running && old(conns)[id].conn == None
        invariant forall id | id in old(conns) && id in want :: unchanged(old(conns)[id])
      {
        var id :| id in gone;
        conns[id].Halt();
        gone := gone - {id};
      }
      conns := map id | id in conns && id in want :: conns[id];
    }

    // One round of the second half of Sync.
    method UpdateOne(id: string, u: UpstreamConfig)
      requires Valid() && u.id == id
      modifies this, if id in conns then {conns[id]} else {}
      ensures Valid() && conns.Keys == old(conns).Keys + {id}
      ensures forall other | other in old(conns) :: conns[other] == old(conns)[other]
      ensures forall other | other in old(conns) && other != id :: unchanged(conns[other])
      ensures id in old(conns) ==> Updated(conns[id], u)
      ensures id !in old(conns) ==> fresh(conns[id]) && Launched(conns[id], u)
    {
      hide P.SerialInv;
      if id in conns {
        SyncExisting(conns[id], u);
      } else {
        var c := SyncNew(u);
        conns := conns[id := c];
      }
    }

    // Second half of Sync: update, start and stop the configured ones.
    method UpdateWanted(want: map<string, UpstreamConfig>)
      requires Valid() && conns.Keys <= want.Keys
      requires forall id | id in want :: want[id].id == id
      modifies this, conns.Values
      ensures Valid() && conns.Keys == want.Keys
      ensures forall id | id in old(conns) :: conns[id] == old(conns)[id] && Updated(conns[id], want[id])
      ensures forall id | id in want && id !in old(conns) :: fresh(conns[id]) && Launched(conns[id], want[id])
    {
      hide P.SerialInv;
      hide Conn.Ready, Conn.View, Conn.Carries, Launched, Valid, UpdatedFrom;
      var todo := want.Keys;
      while todo != {}
        invariant todo <= want.Keys
        invariant Valid()
        invariant conns.Keys == (want.Keys - todo) + old(conns).Keys
        invariant forall id | id in old(conns) ::
                    conns[id] == old(conns)[id] && Handled(conns[id], want[id], id in todo)
        invariant forall id | id in conns && id !in old(conns) ::
                    id !in todo && fresh(conns[id]) && Launched(conns[id], want[id])
      {
        var id :| id in todo;
        label before:
        UpdateOne(id, want[id]);
        todo := todo - {id};
        assert id in old(conns) ==> Updated@before(conns[id], want[id]) && Updated(conns[id], want[id]);
      }
    }

    /** Afterwards the tracked ids are the configured ones, every tracked Conn carries its current
        configuration and runs only if enabled, and dropped Conns are stopped. A Conn that was
        running under the same configuration keeps its run; under another one it does not. */
    method Sync(ups: seq<UpstreamConfig>)
      requires Valid()
      modifies this, conns.Values
      ensures Valid() && Settled(ups)
      ensures forall id | id in old(conns) && id in conns ::
                conns[id] == old(conns)[id] && Updated(conns[id], Want(ups)[id])
      ensures forall id | id in conns && id !in old(conns) :: fresh(conns[id]) && Launched(conns[id], Want(ups)[id])
      ensures forall id | id in old(conns) && id !in conns :: !old(conns)[id].running && old(conns)[id].conn == None
    {
      hide P.SerialInv, Conn.Ready, Conn.View;
      var want := GatherWanted(ups);
      DropGone(want);
      UpdateWanted(want);
    }

    method StopAll()
      requires Valid()
      modifies this, conns.Values
      ensures conns == map[]
      ensures forall id | id in old(conns) :: !old(conns)[id].running && old(conns)[id].conn == None
    {
      DropGone(map[]);
    }

    /** Another Sync on the configuration the last one left behind: the same Conns stay tracked, and
        every running one keeps running under the very same context, neither stopped nor restarted. A
        stopped enabled one without a loop winding down is started. */
    method SyncAgain(ups: seq<UpstreamConfig>)
      requires Valid() && Settled(ups)
      modifies this, conns.Values
      ensures Valid() && Settled(ups) && conns == old(conns)
      ensures forall id | id in conns && old(conns[id].running) ::
                conns[id].running && conns[id].ctx == old(conns[id].ctx)
      ensures forall id | id in conns && Want(ups)[id].enabled && old(conns[id].loopDone) == None :: conns[id].running
    {
      hide P.SerialInv, Conn.Ready, Conn.View;
      Sync(ups);
      assert forall id | id in conns :: Updated(conns[id], Want(ups)[id]);
    }
  }
}
