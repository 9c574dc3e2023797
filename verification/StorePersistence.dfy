/** Saving the order table: a dirty flag under the lock, a snapshot taken under it, and a write that
    happens outside it while orders keep coming. Only one flush runs at a time: Close waits for the
    background flusher before it flushes itself. */
module StorePersistence {
  import opened Options
  import R = OrderRing
  import S = OrderStore
  import T = OrderRuns

  type Table = seq<R.Record>

  // `flight` is the snapshot whose write has not finished; `rewriting` says its rename failed and
  // the target is now being rewritten in place. `tables` is the history a crash is measured against:
  // what was loaded, then every snapshot; `written` is the last of them whose write completed.
  datatype Disk = Disk(ring: R.Ring, flight: Option<Table>, rewriting: bool, file: R.DiskFile,
                       tables: seq<Table>, written: nat)

  datatype Action =
    | BeginOrder(fields: R.Record, now: R.Time)
    | UpdateOrder(id: int, p: R.Patch, now: R.Time)
    | SettleOrder(id: int, result: R.Result, payout: real, settledAt: Option<R.Time>)
    | Snapshot           // flush, under the lock
    | Renamed            // temp file written and renamed over the target
    | WriteFailed        // an error before the rename: the target is untouched
    | RenameFailed       // e.g. a bind mount: fall back to writing in place
    | Torn               // the target truncated or half written, write still going on
    | InPlaceDone
    | InPlaceFailed(left: R.DiskFile)

  function Boot(max: nat, file: R.DiskFile): Disk {
    Disk(R.Load(file, max), None, false, file, [R.Reload(file, max)], 0)
  }

  predicate Enabled(d: Disk, a: Action) {
    match a
    case BeginOrder(_, _) => true
    case UpdateOrder(_, _, _) => true
    case SettleOrder(_, _, _, _) => true
    case Snapshot => d.flight == None && d.ring.dirty
    case Renamed => d.flight.Some? && !d.rewriting
    case WriteFailed => d.flight.Some? && !d.rewriting
    case RenameFailed => d.flight.Some? && !d.rewriting
    case Torn => d.flight.Some? && d.rewriting
    case InPlaceDone => d.flight.Some? && d.rewriting
    case InPlaceFailed(_) => d.flight.Some? && d.rewriting
  }

  function Completed(d: Disk): Disk
    requires d.flight.Some?
  {
    d.(file := R.Saved(d.flight.value), flight := None, rewriting := false,
       written := if |d.tables| > 0 then |d.tables| - 1 else 0)
  }

  function Apply(d: Disk, a: Action): Disk
    requires Enabled(d, a)
  {
    match a
    case BeginOrder(fields, now) => d.(ring := R.Begin(d.ring, fields, now))
    case UpdateOrder(id, p, now) => d.(ring := R.Update(d.ring, id, p, now))
    case SettleOrder(id, result, payout, at) => d.(ring := R.SetResult(d.ring, id, result, payout, at))
    case Snapshot =>
      d.(ring := d.ring.(dirty := false), flight := Some(d.ring.recs), tables := d.tables + [d.ring.recs])
    case Renamed => Completed(d)
    case WriteFailed => d.(ring := d.ring.(dirty := true), flight := None)
    case RenameFailed => d.(rewriting := true)
    case Torn => d.(file := R.Corrupt)
    case InPlaceDone => Completed(d)
    case InPlaceFailed(left) => d.(file := left, ring := d.ring.(dirty := true), flight := None, rewriting := false)
  }

  predicate Runs(d: Disk, acts: seq<Action>)
    decreases |acts|
  {
    acts == [] || (Enabled(d, acts[0]) && Runs(Apply(d, acts[0]), acts[1..]))
  }

  function Exec(d: Disk, acts: seq<Action>): Disk
    requires Runs(d, acts)
    decreases |acts|
  {
    if acts == [] then d else Exec(Apply(d, acts[0]), acts[1..])
  }

  // Orders, their updates and their settlements act on the saved table as they do on the plain one, and
  // no step of saving changes a record.
  lemma DiskFollowsTable(d: Disk, a: Action)
    requires Enabled(d, a)
    ensures var t := T.Table(d.ring, None); var recs := Apply(d, a).ring.recs;
            match a
            case BeginOrder(fields, now) => recs == T.Apply(t, T.Begin(fields, now)).ring.recs
            case UpdateOrder(id, p, now) => recs == T.Apply(t, T.Update(id, p, now)).ring.recs
            case SettleOrder(id, result, payout, at) =>
              recs == T.Apply(t.(matched := Some(id)), T.Settle(result, payout, at)).ring.recs
            case _ => recs == d.ring.recs
    ensures Apply(d, a).ring.recs != d.ring.recs ==> Apply(d, a).ring.dirty
  {
  }

  // What a restart would show.
  function AfterCrash(d: Disk): Table { R.Reload(d.file, d.ring.max) }

  ghost predicate Inv(d: Disk) {
    && d.ring.max > 0 && |d.ring.recs| <= d.ring.max
    && d.written < |d.tables|
    && (d.rewriting ==> d.flight.Some?)
    && (d.flight.Some? ==> d.flight.value == d.tables[|d.tables| - 1] && |d.flight.value| <= d.ring.max)
    && (!d.ring.dirty ==> d.ring.recs == match d.flight case Some(bytes) => bytes case None => AfterCrash(d))
  }

  lemma InvStep(d: Disk, a: Action)
    requires Inv(d) && Enabled(d, a)
    ensures Inv(Apply(d, a))
  {
  }

  lemma {:induction false} InvRuns(d: Disk, acts: seq<Action>)
    requires Inv(d) && Runs(d, acts)
    ensures Inv(Exec(d, acts))
    decreases |acts|
  {
    if acts != [] {
      InvStep(d, acts[0]);
      InvRuns(Apply(d, acts[0]), acts[1..]);
    }
  }

  // Whatever writes fail: when nothing is dirty and no write is in flight, a restart shows exactly
  // the table in memory; while a write is in flight and nothing is dirty, its bytes reload to it.
  lemma CleanMeansSaved(max: nat, file: R.DiskFile, acts: seq<Action>)
    requires max > 0 && Runs(Boot(max, file), acts)
    ensures var d := Exec(Boot(max, file), acts);
            && (!d.ring.dirty && d.flight == None ==> AfterCrash(d) == d.ring.recs)
            && (!d.ring.dirty && d.flight.Some? ==> R.Reload(R.Saved(d.flight.value), d.ring.max) == d.ring.recs)
  {
    InvRuns(Boot(max, file), acts);
  }

  /* ---- After a failed write ---- */

  predicate OrderAction(a: Action) { a.BeginOrder? || a.UpdateOrder? || a.SettleOrder? }

  lemma {:induction false} OrdersStayDirty(d: Disk, acts: seq<Action>)
    requires d.ring.dirty && d.flight == None && !d.rewriting
    requires forall i | 0 <= i < |acts| :: OrderAction(acts[i])
    ensures Runs(d, acts)
    ensures var e := Exec(d, acts);
            e.ring.dirty && e.flight == None && !e.rewriting && e.file == d.file && e.tables == d.tables
    decreases |acts|
  {
    if acts != [] {
      assert OrderAction(acts[0]);
      OrdersStayDirty(Apply(d, acts[0]), acts[1..]);
    }
  }

  // However a write fails, nothing is lost for good: whatever orders do in the meantime, the next
  // flush whose write succeeds leaves exactly the table then in memory on disk.
  lemma FailureRearms(d: Disk, a: Action, orders: seq<Action>)
    requires Inv(d) && Enabled(d, a) && (a.WriteFailed? || a.InPlaceFailed?)
    requires forall i | 0 <= i < |orders| :: OrderAction(orders[i])
    ensures Apply(d, a).ring.recs == d.ring.recs
    ensures Runs(Apply(d, a), orders)
    ensures var e := Exec(Apply(d, a), orders);
            && Runs(e, [Snapshot, Renamed])
            && AfterCrash(Exec(e, [Snapshot, Renamed])) == Exec(e, [Snapshot, Renamed]).ring.recs == e.ring.recs
  {
    var f := Apply(d, a);
    InvStep(d, a);
    OrdersStayDirty(f, orders);
    InvRuns(f, orders);
    var e := Exec(f, orders);
    var e1 := Apply(e, Snapshot);
    var e2 := Apply(e1, Renamed);
    assert [Snapshot, Renamed][1..] == [Renamed];
    assert Runs(e1, [Renamed]) && Exec(e1, [Renamed]) == e2;
    InvStep(e, Snapshot);
    InvStep(e1, Renamed);
  }

  /* ---- What a crash shows ---- */

  // The table of the last completed write; before any, the one loaded.
  function LastWritten(d: Disk): Table
    requires d.written < |d.tables|
  {
    d.tables[d.written]
  }

  // The file changes in these steps only.
  predicate TouchesFile(a: Action) { a.Renamed? || a.Torn? || a.InPlaceDone? || a.InPlaceFailed? }

  // What such a step leaves reads back as this table, given that a completed write does.
  predicate Leaves(a: Action, max: nat, table: Table) {
    match a
    case Torn => table == []
    case InPlaceFailed(left) => R.Reload(left, max) == table
    case _ => true
  }

  // One step, from any state whose file shows the last written table: only a write that has begun in
  // place and is torn or fails with something else in the file can change that.
  lemma StepShowsLastWriteIff(d: Disk, a: Action)
    requires Inv(d) && Enabled(d, a) && AfterCrash(d) == LastWritten(d)
    ensures d.written < |d.tables| && Apply(d, a).written < |Apply(d, a).tables|
    ensures AfterCrash(Apply(d, a)) == LastWritten(Apply(d, a)) <==> Leaves(a, d.ring.max, LastWritten(d))
  {
    InvStep(d, a);
  }

  lemma TouchShows(d: Disk, a: Action)
    requires Inv(d) && Enabled(d, a)
    ensures Inv(Apply(d, a)) && Apply(d, a).ring.max == d.ring.max
    ensures d.tables <= Apply(d, a).tables && d.written <= Apply(d, a).written
    ensures TouchesFile(a) ==>
              (AfterCrash(Apply(d, a)) == LastWritten(Apply(d, a)) <==>
               Leaves(a, d.ring.max, LastWritten(Apply(d, a))))
    ensures !TouchesFile(a) ==>
              AfterCrash(Apply(d, a)) == AfterCrash(d) && LastWritten(Apply(d, a)) == LastWritten(d)
  {
    InvStep(d, a);
  }

  function LastTouch(acts: seq<Action>): Option<Action> {
    if acts == [] then None
    else if LastTouch(acts[1..]).Some? then LastTouch(acts[1..])
    else if TouchesFile(acts[0]) then Some(acts[0])
    else None
  }

  lemma {:induction false} RunShowsLastWriteIff(d: Disk, acts: seq<Action>)
    requires Inv(d) && Runs(d, acts)
    ensures Inv(Exec(d, acts)) && Exec(d, acts).ring.max == d.ring.max
    ensures d.tables <= Exec(d, acts).tables && d.written <= Exec(d, acts).written
    ensures var e := Exec(d, acts);
            match LastTouch(acts)
            case Some(a) => AfterCrash(e) == LastWritten(e) <==> Leaves(a, d.ring.max, LastWritten(e))
            case None => AfterCrash(e) == AfterCrash(d) && LastWritten(e) == LastWritten(d)
    decreases |acts|
  {
    hide Inv, Enabled, Apply, AfterCrash, TouchesFile, Leaves;
    if acts != [] {
      TouchShows(d, acts[0]);
      RunShowsLastWriteIff(Apply(d, acts[0]), acts[1..]);
    }
  }

  // Over every run from a start, whatever fails: the history of snapshots and the last completed write
  // in it never go back, and a crash shows the table of that write if and only if the latest step that
  // touched the file was a completed write or left a file that reads as that table anyway.
  lemma CrashShowsLastWriteIff(max: nat, file: R.DiskFile, before: seq<Action>, after: seq<Action>)
    requires max > 0 && Runs(Boot(max, file), before) && Runs(Exec(Boot(max, file), before), after)
    ensures var d := Exec(Boot(max, file), before);
            var e := Exec(d, after);
            && d.written < |d.tables| && e.written < |e.tables|
            && d.tables <= e.tables && d.written <= e.written
            && (AfterCrash(d) == LastWritten(d) <==>
                LastTouch(before) == None || Leaves(LastTouch(before).value, max, LastWritten(d)))
  {
    var boot := Boot(max, file);
    RunShowsLastWriteIff(boot, before);
    RunShowsLastWriteIff(Exec(boot, before), after);
  }

  lemma {:induction false} TouchIsMember(acts: seq<Action>)
    ensures LastTouch(acts).Some? ==> LastTouch(acts).value in acts
  {
    if acts != [] {
      TouchIsMember(acts[1..]);
    }
  }

  lemma {:induction false} NoRewriteWithoutFailure(d: Disk, acts: seq<Action>)
    requires Runs(d, acts) && !d.rewriting && RenameFailed !in acts
    ensures LastTouch(acts).Some? ==> LastTouch(acts).value.Renamed?
    decreases |acts|
  {
    if acts != [] {
      assert acts[0] in acts;
      NoRewriteWithoutFailure(Apply(d, acts[0]), acts[1..]);
    }
  }

  // In particular, while renames work a crash at any point loses at most what followed the last
  // completed write.
  lemma CrashShowsLastWrite(max: nat, file: R.DiskFile, acts: seq<Action>)
    requires max > 0 && Runs(Boot(max, file), acts) && RenameFailed !in acts
    ensures var d := Exec(Boot(max, file), acts); d.written < |d.tables| && AfterCrash(d) == LastWritten(d)
  {
    NoRewriteWithoutFailure(Boot(max, file), acts);
    assert Exec(Exec(Boot(max, file), acts), []) == Exec(Boot(max, file), acts);
    CrashShowsLastWriteIff(max, file, acts, []);
  }

  // From a start with a saved history, one order and one flush whose rename fails: a crash inside the
  // in-place write shows an empty history that was never a snapshot.
  lemma TornWriteForgets(max: nat, saved: Table, fields: R.Record, now: R.Time)
    returns (acts: seq<Action>)
    requires max > 0 && saved != []
    ensures Runs(Boot(max, R.Saved(saved)), acts)
    ensures var d := Exec(Boot(max, R.Saved(saved)), acts);
            AfterCrash(d) == [] && [] !in d.tables && |d.tables| == 2 && d.tables[0] == R.Reload(R.Saved(saved), max)
  {
    acts := [BeginOrder(fields, now), Snapshot, RenameFailed, Torn];
    var d0 := Boot(max, R.Saved(saved));
    var d1 := Apply(d0, acts[0]);
    var d2 := Apply(d1, Snapshot);
    var d3 := Apply(d2, RenameFailed);
    var d4 := Apply(d3, Torn);
    assert d4.tables == [R.Reload(R.Saved(saved), max), d1.ring.recs] && d1.ring.recs != [];
    assert d4.file == R.Corrupt;
    assert Runs(d4, []) && Exec(d4, []) == d4;
    hide Apply, Enabled;
    assert acts[1..] == [Snapshot] + ([RenameFailed] + ([Torn] + []));
    RunsCons(d3, Torn, []);
    RunsCons(d2, RenameFailed, [Torn] + []);
    RunsCons(d1, Snapshot, [RenameFailed] + ([Torn] + []));
    RunsCons(d0, acts[0], acts[1..]);
    assert [acts[0]] + acts[1..] == acts;
  }

  lemma RunsCons(d: Disk, a: Action, rest: seq<Action>)
    requires Enabled(d, a) && Runs(Apply(d, a), rest)
    ensures Runs(d, [a] + rest) && Exec(d, [a] + rest) == Exec(Apply(d, a), rest)
  {
    hide Apply, Enabled;
    assert ([a] + rest)[1..] == rest;
  }

  /* ---- The flusher ---- */

  // How a write can go: before the rename, by the rename, or in place after it failed.
  datatype WriteOutcome = FailsBefore | Renames | RewritesInPlace | FailsInPlace(left: R.DiskFile)

  predicate Succeeds(w: WriteOutcome) { w.Renames? || w.RewritesInPlace? }

  // The steps of one flush that nothing interrupts.
  function FlushSteps(w: WriteOutcome): seq<Action> {
    match w
    case FailsBefore => [Snapshot] + [WriteFailed]
    case Renames => [Snapshot] + [Renamed]
    case RewritesInPlace => [Snapshot] + ([RenameFailed] + [InPlaceDone])
    case FailsInPlace(left) => [Snapshot] + ([RenameFailed] + [InPlaceFailed(left)])
  }

  predicate Quiet(d: Disk) { d.flight == None && !d.rewriting }

  // What the write makes of the disk once the snapshot is in flight.
  function Finished(d: Disk, w: WriteOutcome): Disk
    requires d.flight.Some? && !d.rewriting
  {
    match w
    case FailsBefore => Apply(d, WriteFailed)
    case Renames => Apply(d, Renamed)
    case RewritesInPlace => Apply(Apply(d, RenameFailed), InPlaceDone)
    case FailsInPlace(left) => Apply(Apply(d, RenameFailed), InPlaceFailed(left))
  }

  lemma OneStep(d: Disk, a: Action)
    requires Enabled(d, a)
    ensures Runs(d, [a]) && Exec(d, [a]) == Apply(d, a)
  {
    assert Runs(Apply(d, a), []) && Exec(Apply(d, a), []) == Apply(d, a);
    RunsCons(d, a, []);
    assert [a] + [] == [a];
  }

  lemma FlushRuns(d: Disk, w: WriteOutcome)
    requires Quiet(d) && d.ring.dirty
    ensures Runs(d, FlushSteps(w)) && Exec(d, FlushSteps(w)) == Finished(Apply(d, Snapshot), w)
  {
    var e := Apply(d, Snapshot);
    match w {
      case FailsBefore =>
        OneStep(e, WriteFailed);
        RunsCons(d, Snapshot, [WriteFailed]);
      case Renames =>
        OneStep(e, Renamed);
        RunsCons(d, Snapshot, [Renamed]);
      case RewritesInPlace =>
        OneStep(Apply(e, RenameFailed), InPlaceDone);
        RunsCons(e, RenameFailed, [InPlaceDone]);
        RunsCons(d, Snapshot, [RenameFailed] + [InPlaceDone]);
      case FailsInPlace(left) =>
        OneStep(Apply(e, RenameFailed), InPlaceFailed(left));
        RunsCons(e, RenameFailed, [InPlaceFailed(left)]);
        RunsCons(d, Snapshot, [RenameFailed] + [InPlaceFailed(left)]);
    }
  }

  // The flush protocol on the store object itself.
  class Flusher {
    const store: S.Store
    var file: R.DiskFile
    var closed: bool
    ghost var flight: Option<Table>
    ghost var tables: seq<Table>
    ghost var written: nat

    ghost function View(): Disk
      reads this, store
    {
      Disk(store.View(), flight, false, file, tables, written)
    }

    constructor (max: int, file: R.DiskFile)
      ensures View() == Boot(if max <= 0 then S.DEFAULT_MAX else max, file) && Inv(View()) && Quiet(View()) && !closed
      ensures fresh(store)
    {
      var s := new S.Store(max);
      store := s;
      this.file := file;
      closed := false;
      flight, tables, written := None, [R.Reload(file, if max <= 0 then S.DEFAULT_MAX else max)], 0;
      new;
      store.Load(file);
    }

    // writeAtomic: the file afterwards, and whether an error is returned.
    method WriteAtomic(data: Table, w: WriteOutcome) returns (ok: bool)
      requires flight == Some(data)
      modifies this`file
      ensures ok <==> Succeeds(w)
      ensures file == match w
                      case FailsBefore => old(file)
                      case FailsInPlace(left) => left
                      case _ => R.Saved(data)
    {
      if w.FailsBefore? {
        return false;
      }
      if w.Renames? {
        file := R.Saved(data);
        return true;
      }
      file := if w.FailsInPlace? then w.left else R.Saved(data);
      return w.RewritesInPlace?;
    }

    /** One flush that no order interrupts: nothing when the table is clean, otherwise exactly the steps
        of its outcome, and in the end nothing is in flight. If the write succeeds a restart shows the
        table; if it fails the table stays dirty. */
    method Flush(w: WriteOutcome)
      requires Inv(View()) && Quiet(View())
      modifies this`file, this`flight, this`tables, this`written, store`dirty
      ensures Inv(View()) && Quiet(View()) && store.recs == old(store.recs)
      ensures if !old(store.dirty) then View() == old(View())
              else Runs(old(View()), FlushSteps(w)) && View() == Exec(old(View()), FlushSteps(w))
      ensures old(store.dirty) ==> store.dirty == !Succeeds(w)
      ensures !store.dirty ==> AfterCrash(View()) == store.recs
    {
      ghost var d := View();
      var bytes := store.Snapshot();
      if bytes == None {
        assert View() == d;
        return;
      }
      FlushRuns(d, w);
      InvRuns(d, FlushSteps(w));
      flight, tables := bytes, tables + [bytes.value];
      assert View() == Apply(d, Snapshot);
      var ok := WriteAtomic(bytes.value, w);
      if ok {
        written := |tables| - 1;
      } else {
        store.Rearm();
      }
      flight := None;
      assert View() == Finished(Apply(d, Snapshot), w);
    }

    /** The last flush; closing again does nothing. */
    method Close(w: WriteOutcome)
      requires Inv(View()) && Quiet(View())
      modifies this`file, this`closed, this`flight, this`tables, this`written, store`dirty
      ensures Inv(View()) && Quiet(View()) && closed && store.recs == old(store.recs)
      ensures old(closed) ==> View() == old(View())
      ensures !old(closed) && Succeeds(w) ==> !store.dirty && AfterCrash(View()) == store.recs
    {
      if closed {
        return;
      }
      closed := true;
      Flush(w);
    }
  }
}
