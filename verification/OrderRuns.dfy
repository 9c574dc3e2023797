/** Orders, their updates and the settlement poller over one store, in any interleaving. The poller is
    a single goroutine, but between its FindMatch and its SetResult the lock is free. */
module OrderRuns {
  import opened Options
  import R = OrderRing

  // `matched` is the record id the poller holds between FindMatch and SetResult.
  datatype Table = Table(ring: R.Ring, matched: Option<int>)

  datatype Action =
    | Begin(fields: R.Record, now: R.Time)
    | Update(id: int, p: R.Patch, now: R.Time)
    | Find(q: R.Query)
    | Settle(result: R.Result, payout: real, settledAt: Option<R.Time>)

  predicate Enabled(t: Table, a: Action) {
    (a.Find? ==> t.matched == None) && (a.Settle? ==> t.matched.Some?)
  }

  function Apply(t: Table, a: Action): Table
    requires Enabled(t, a)
  {
    match a
    case Begin(fields, now) => t.(ring := R.Begin(t.ring, fields, now))
    case Update(id, p, now) => t.(ring := R.Update(t.ring, id, p, now))
    case Find(q) =>
      var (id, _, ok) := R.FindMatch(t.ring.recs, q);
      if ok then t.(matched := Some(id)) else t
    case Settle(result, payout, at) => Table(R.SetResult(t.ring, t.matched.value, result, payout, at), None)
  }

  predicate Runs(t: Table, acts: seq<Action>)
    decreases |acts|
  {
    acts == [] || (Enabled(t, acts[0]) && Runs(Apply(t, acts[0]), acts[1..]))
  }

  function Exec(t: Table, acts: seq<Action>): Table
    requires Runs(t, acts)
    decreases |acts|
  {
    if acts == [] then t else Exec(Apply(t, acts[0]), acts[1..])
  }

  /* ---- Records keep their identity ---- */

  // Every record afterwards is a new one or continues the record with its id.
  lemma StepContinues(t: Table, a: Action, i: nat)
    requires R.Valid(t.ring) && Enabled(t, a) && i < |Apply(t, a).ring.recs|
    ensures var r := Apply(t, a).ring.recs[i];
            (a.Begin? && r.id == t.ring.last + 1) ||
            exists j :: 0 <= j < |t.ring.recs| && t.ring.recs[j].id == r.id && r == Continued(t, a, t.ring.recs[j])
  {
    if a.Begin? {
      var recs := t.ring.recs + [R.NewRecord(a.fields, t.ring.last + 1, a.now)];
      var j := if |recs| > t.ring.max then i + |recs| - t.ring.max else i;
      assert Apply(t, a).ring.recs[i] == recs[j];
      if j < |t.ring.recs| {
        assert t.ring.recs[j] == Continued(t, a, t.ring.recs[j]);
      }
    } else {
      R.IndexOfId(t.ring, i);
      assert t.ring.recs[i].id == Apply(t, a).ring.recs[i].id;
    }
  }

  // What one action makes of one record.
  function Continued(t: Table, a: Action, r: R.Record): R.Record {
    match a
    case Update(id, p, now) => if id == r.id && id != 0 then R.Touch(R.ApplyPatch(p, r), now) else r
    case Settle(result, payout, at) =>
      if t.matched == Some(r.id) && r.id != 0 && result != R.Unset then R.Settle(r, result, payout, at) else r
    case _ => r
  }

  lemma ValidStep(t: Table, a: Action)
    requires R.Valid(t.ring) && Enabled(t, a)
    ensures R.Valid(Apply(t, a).ring) && t.ring.last <= Apply(t, a).ring.last
  {
    if a.Begin? {
      R.BeginValid(t.ring, a.fields, a.now);
    }
  }

  /* ---- A win is absorbing ---- */

  ghost predicate Inv(t: Table) {
    && R.Valid(t.ring)
    && (t.matched.Some? ==> t.matched.value <= t.ring.last &&
                            forall r | r in t.ring.recs && r.id == t.matched.value :: R.Open(r))
  }

  // The record of this id, if still in the ring, was won with this payout at this time.
  ghost predicate WonAs(t: Table, id: int, payout: real, settledAt: Option<R.Time>) {
    id <= t.ring.last &&
    forall r | r in t.ring.recs && r.id == id :: r.result == R.Win && r.payout == payout && r.settledAt == settledAt
  }

  lemma InvStep(t: Table, a: Action)
    requires Inv(t) && Enabled(t, a)
    ensures Inv(Apply(t, a))
  {
    ValidStep(t, a);
    var u := Apply(t, a);
    if u.matched.Some? {
      forall i | 0 <= i < |u.ring.recs| && u.ring.recs[i].id == u.matched.value
        ensures R.Open(u.ring.recs[i])
      {
        if a.Find? {
          var b := R.Best(t.ring.recs, a.q);
          R.IndexOfId(t.ring, b);
          R.IndexOfId(t.ring, i);
        } else {
          StepContinues(t, a, i);
        }
      }
    }
  }

  lemma WonStep(t: Table, a: Action, id: int, payout: real, settledAt: Option<R.Time>)
    requires Inv(t) && Enabled(t, a) && WonAs(t, id, payout, settledAt)
    ensures WonAs(Apply(t, a), id, payout, settledAt)
  {
    ValidStep(t, a);
    var u := Apply(t, a);
    forall i | 0 <= i < |u.ring.recs| && u.ring.recs[i].id == id
      ensures u.ring.recs[i].result == R.Win && u.ring.recs[i].payout == payout && u.ring.recs[i].settledAt == settledAt
    {
      StepContinues(t, a, i);
    }
  }

  // Over any interleaving, once a record is won its result, payout and settlement time are final.
  lemma {:induction false} WinIsAbsorbing(t: Table, acts: seq<Action>, id: int, payout: real, settledAt: Option<R.Time>)
    requires Inv(t) && Runs(t, acts) && WonAs(t, id, payout, settledAt)
    ensures Inv(Exec(t, acts)) && WonAs(Exec(t, acts), id, payout, settledAt)
    decreases |acts|
  {
    if acts != [] {
      InvStep(t, acts[0]);
      WonStep(t, acts[0], id, payout, settledAt);
      WinIsAbsorbing(Apply(t, acts[0]), acts[1..], id, payout, settledAt);
    }
  }

  /* ---- What a record shows of its order ---- */

  datatype Progress = Progress(status: R.Status, attempts: int)

  function Advance(p: R.Patch, s: Progress): Progress {
    match p
    case SetAttempts(n) => s.(attempts := n)
    case SetRetrying => s.(status := R.Retrying)
    case Finish(None) => s.(status := R.Success)
    case Finish(Some(_)) => s.(status := R.Failed)
    case _ => s
  }

  function Fold(patches: seq<R.Patch>, s: Progress): Progress {
    if patches == [] then s else Advance(patches[|patches| - 1], Fold(patches[..|patches| - 1], s))
  }

  // The patches a run applies to one id, in order.
  function PatchesOf(acts: seq<Action>, id: int): seq<R.Patch> {
    if acts == [] then []
    else
      var rest := PatchesOf(acts[..|acts| - 1], id);
      var a := acts[|acts| - 1];
      if a.Update? && a.id == id then rest + [a.p] else rest
  }

  ghost predicate Shows(t: Table, id: int, s: Progress) {
    0 < id <= t.ring.last &&
    forall r | r in t.ring.recs && r.id == id :: r.status == s.status && r.attempts == s.attempts
  }

  // The record right after its beginning.
  lemma BegunRecord(t: Table, fields: R.Record, now: R.Time)
    requires Inv(t)
    ensures var u := Apply(t, Begin(fields, now));
            && Inv(u) && u.ring.last == t.ring.last + 1
            && forall r | r in u.ring.recs && r.id == t.ring.last + 1 ::
                 r == fields.(id := t.ring.last + 1, time := now, updatedAt := now,
                              status := R.Pending, durationMs := 0)
  {
    var a := Begin(fields, now);
    InvStep(t, a);
    R.BeginValid(t.ring, fields, now);
    var recs := t.ring.recs + [R.NewRecord(fields, t.ring.last + 1, now)];
    assert forall j | 0 <= j < |t.ring.recs| :: recs[j].id <= t.ring.last;
    forall i | 0 <= i < |Apply(t, a).ring.recs| && Apply(t, a).ring.recs[i].id == t.ring.last + 1
      ensures Apply(t, a).ring.recs[i] == R.NewRecord(fields, t.ring.last + 1, now)
    {
      var j := if |recs| > t.ring.max then i + |recs| - t.ring.max else i;
      assert Apply(t, a).ring.recs[i] == recs[j];
    }
  }

  // A record begins as pending, with the attempts it was created with.
  lemma BeginShows(t: Table, fields: R.Record, now: R.Time)
    requires Inv(t)
    ensures var u := Apply(t, Begin(fields, now));
            Inv(u) && u.ring.last == t.ring.last + 1 && Shows(u, u.ring.last, Progress(R.Pending, fields.attempts))
  {
    hide Apply;
    BegunRecord(t, fields, now);
    PositiveIds(t);
  }

  lemma PositiveIds(t: Table)
    requires Inv(t)
    ensures t.ring.last >= 0
  {
  }

  lemma ShowsStep(t: Table, a: Action, id: int, s: Progress)
    requires Inv(t) && Enabled(t, a) && Shows(t, id, s)
    ensures Shows(Apply(t, a), id, if a.Update? && a.id == id then Advance(a.p, s) else s)
  {
    ValidStep(t, a);
    var u := Apply(t, a);
    var s' := if a.Update? && a.id == id then Advance(a.p, s) else s;
    forall i | 0 <= i < |u.ring.recs| && u.ring.recs[i].id == id
      ensures u.ring.recs[i].status == s'.status && u.ring.recs[i].attempts == s'.attempts
    {
      StepContinues(t, a, i);
    }
  }

  lemma {:induction false} ExecSnoc(t: Table, acts: seq<Action>)
    requires Runs(t, acts) && acts != []
    ensures Runs(t, acts[..|acts| - 1]) && Enabled(Exec(t, acts[..|acts| - 1]), acts[|acts| - 1])
    ensures Exec(t, acts) == Apply(Exec(t, acts[..|acts| - 1]), acts[|acts| - 1])
    decreases |acts|
  {
    var n := |acts| - 1;
    if n == 0 {
      assert Exec(Apply(t, acts[0]), []) == Apply(t, acts[0]);
    } else {
      ExecSnoc(Apply(t, acts[0]), acts[1..]);
      assert acts[1..][..n - 1] == acts[..n][1..];
    }
  }

  // However other orders, evictions and settlements interleave, an unevicted record shows exactly the
  // fold of its own updates.
  lemma {:induction false} RecordFollowsItsUpdates(t: Table, acts: seq<Action>, id: int, s: Progress)
    requires Inv(t) && Runs(t, acts) && Shows(t, id, s)
    ensures Inv(Exec(t, acts)) && Shows(Exec(t, acts), id, Fold(PatchesOf(acts, id), s))
    decreases |acts|
  {
    if acts != [] {
      var n := |acts| - 1;
      ExecSnoc(t, acts);
      RecordFollowsItsUpdates(t, acts[..n], id, s);
      var before := Exec(t, acts[..n]);
      InvStep(before, acts[n]);
      ShowsStep(before, acts[n], id, Fold(PatchesOf(acts[..n], id), s));
      if acts[n].Update? && acts[n].id == id {
        assert PatchesOf(acts, id)[..|PatchesOf(acts, id)| - 1] == PatchesOf(acts[..n], id);
      }
    }
  }

  /* ---- What no update changes, and what the last one leaves ---- */

  // The record of this id, if still in the ring, is the order begun at this time with these fields.
  ghost predicate IsOrder(t: Table, id: int, fields: R.Record, at: R.Time) {
    0 < id <= t.ring.last &&
    forall r | r in t.ring.recs && r.id == id ::
      && r.time == at && r.details == fields.details && r.taskId == fields.taskId
      && r.period == fields.period && r.amount == fields.amount
  }

  lemma BeginIsOrder(t: Table, fields: R.Record, now: R.Time)
    requires Inv(t)
    ensures var u := Apply(t, Begin(fields, now)); Inv(u) && IsOrder(u, t.ring.last + 1, fields, now)
  {
    BegunRecord(t, fields, now);
  }

  lemma OrderStep(t: Table, a: Action, id: int, fields: R.Record, at: R.Time)
    requires Inv(t) && Enabled(t, a) && IsOrder(t, id, fields, at)
    ensures IsOrder(Apply(t, a), id, fields, at)
  {
    ValidStep(t, a);
    var u := Apply(t, a);
    forall i | 0 <= i < |u.ring.recs| && u.ring.recs[i].id == id
      ensures var r := u.ring.recs[i];
              && r.time == at && r.details == fields.details && r.taskId == fields.taskId
              && r.period == fields.period && r.amount == fields.amount
    {
      StepContinues(t, a, i);
    }
  }

  lemma {:induction false} OrderOverRun(t: Table, acts: seq<Action>, id: int, fields: R.Record, at: R.Time)
    requires Inv(t) && Runs(t, acts) && IsOrder(t, id, fields, at)
    ensures Inv(Exec(t, acts)) && IsOrder(Exec(t, acts), id, fields, at)
    decreases |acts|
  {
    hide Inv, IsOrder, Apply, Enabled;
    if acts != [] {
      InvStep(t, acts[0]);
      OrderStep(t, acts[0], id, fields, at);
      OrderOverRun(Apply(t, acts[0]), acts[1..], id, fields, at);
    }
  }

  // From its Begin on an unevicted record keeps the order it was created for: when it was placed, by
  // which account, for how much and for which period, whatever updates and settlements follow.
  lemma RecordKeepsItsOrder(t: Table, fields: R.Record, now: R.Time, acts: seq<Action>)
    requires Inv(t) && Runs(Apply(t, Begin(fields, now)), acts)
    ensures forall r | r in Exec(Apply(t, Begin(fields, now)), acts).ring.recs && r.id == t.ring.last + 1 ::
              && r.time == now && r.details == fields.details && r.taskId == fields.taskId
              && r.period == fields.period && r.amount == fields.amount
  {
    BeginIsOrder(t, fields, now);
    OrderOverRun(Apply(t, Begin(fields, now)), acts, t.ring.last + 1, fields, now);
  }

  // The last value a list of patches sets a field to, or what it was.
  function LastHttpStatus(ps: seq<R.Patch>, was: int): int {
    if ps == [] then was
    else match ps[|ps| - 1] case SetHttpStatus(n) => n case _ => LastHttpStatus(ps[..|ps| - 1], was)
  }

  function LastCode(ps: seq<R.Patch>, was: string): string {
    if ps == [] then was
    else match ps[|ps| - 1] case SetReply(code, _) => code case _ => LastCode(ps[..|ps| - 1], was)
  }

  function LastMessage(ps: seq<R.Patch>, was: string): string {
    if ps == [] then was
    else match ps[|ps| - 1] case SetReply(_, message) => message case _ => LastMessage(ps[..|ps| - 1], was)
  }

  function LastError(ps: seq<R.Patch>, was: string): string {
    if ps == [] then was
    else match ps[|ps| - 1] case Finish(Some(e)) => e case _ => LastError(ps[..|ps| - 1], was)
  }

  // The clock of the last update of this id.
  function LastClock(acts: seq<Action>, id: int, was: R.Time): R.Time {
    if acts == [] then was
    else
      var a := acts[|acts| - 1];
      if a.Update? && a.id == id then a.now else LastClock(acts[..|acts| - 1], id, was)
  }

  predicate HasAnswer(r: R.Record, http: int, code: string, message: string, error: string, at: R.Time) {
    && r.httpStatus == http && r.code == code && r.message == message && r.error == error
    && r.updatedAt == at && InMilliseconds(r.durationMs, r.updatedAt - r.time)
  }

  // The record of this id, if still in the ring, shows this answer, last changed at this time.
  ghost predicate Answered(t: Table, id: int, http: int, code: string, message: string, error: string, at: R.Time) {
    0 < id <= t.ring.last && forall r | r in t.ring.recs && r.id == id :: HasAnswer(r, http, code, message, error, at)
  }

  // A duration cut to whole milliseconds, towards zero.
  predicate InMilliseconds(ms: int, nanos: int) {
    if nanos >= 0 then ms * 1_000_000 <= nanos < (ms + 1) * 1_000_000
    else (ms - 1) * 1_000_000 < nanos <= ms * 1_000_000
  }

  lemma MillisecondsAre(d: int)
    ensures InMilliseconds(R.Milliseconds(d), d)
  {
  }

  lemma ContinuedAnswer(t: Table, a: Action, r: R.Record,
                        http: int, code: string, message: string, error: string, at: R.Time)
    requires HasAnswer(r, http, code, message, error, at) && r.id > 0
    ensures var ps := if a.Update? && a.id == r.id then [a.p] else [];
            HasAnswer(Continued(t, a, r), LastHttpStatus(ps, http), LastCode(ps, code), LastMessage(ps, message),
                      LastError(ps, error), if a.Update? && a.id == r.id then a.now else at)
  {
    hide R.Milliseconds, InMilliseconds;
    if a.Update? && a.id == r.id {
      assert [a.p][..0] == [];
      MillisecondsAre(a.now - r.time);
    }
  }

  lemma AnsweredStep(t: Table, a: Action, id: int, http: int, code: string, message: string, error: string, at: R.Time)
    requires Inv(t) && Enabled(t, a) && Answered(t, id, http, code, message, error, at)
    ensures var ps := if a.Update? && a.id == id then [a.p] else [];
            Answered(Apply(t, a), id, LastHttpStatus(ps, http), LastCode(ps, code), LastMessage(ps, message),
                     LastError(ps, error), if a.Update? && a.id == id then a.now else at)
  {
    ValidStep(t, a);
    hide HasAnswer, Continued, LastHttpStatus, LastCode, LastMessage, LastError, Apply, Enabled;
    var u := Apply(t, a);
    forall i | 0 <= i < |u.ring.recs| && u.ring.recs[i].id == id
      ensures var ps := if a.Update? && a.id == id then [a.p] else [];
              HasAnswer(u.ring.recs[i], LastHttpStatus(ps, http), LastCode(ps, code), LastMessage(ps, message),
                        LastError(ps, error), if a.Update? && a.id == id then a.now else at)
    {
      StepContinues(t, a, i);
      var j :| 0 <= j < |t.ring.recs| && t.ring.recs[j].id == id && u.ring.recs[i] == Continued(t, a, t.ring.recs[j]);
      ContinuedAnswer(t, a, t.ring.recs[j], http, code, message, error, at);
    }
  }

  lemma {:induction false} LastOfSnoc(ps: seq<R.Patch>, p: R.Patch,
                                      http: int, code: string, message: string, error: string)
    ensures LastHttpStatus(ps + [p], http) == LastHttpStatus([p], LastHttpStatus(ps, http))
    ensures LastCode(ps + [p], code) == LastCode([p], LastCode(ps, code))
    ensures LastMessage(ps + [p], message) == LastMessage([p], LastMessage(ps, message))
    ensures LastError(ps + [p], error) == LastError([p], LastError(ps, error))
  {
    assert (ps + [p])[..|ps|] == ps && [p][..0] == [];
  }

  // An unevicted record shows, field by field, the last status, code, message and error its updates set,
  // when the last of them was, and how long after its beginning.
  lemma {:induction false} RecordShowsLastAnswer(t: Table, acts: seq<Action>, id: int,
                                                 http: int, code: string, message: string, error: string, at: R.Time)
    requires Inv(t) && Runs(t, acts) && Answered(t, id, http, code, message, error, at)
    ensures var ps := PatchesOf(acts, id);
            Inv(Exec(t, acts)) &&
            Answered(Exec(t, acts), id, LastHttpStatus(ps, http), LastCode(ps, code), LastMessage(ps, message),
                     LastError(ps, error), LastClock(acts, id, at))
  {
    hide Inv, Apply, Enabled, Answered, LastHttpStatus, LastCode, LastMessage, LastError;
    if acts == [] {
      NothingSet(http, code, message, error);
    } else {
      var n := |acts| - 1;
      ExecSnoc(t, acts);
      RecordShowsLastAnswer(t, acts[..n], id, http, code, message, error, at);
      var before := Exec(t, acts[..n]);
      var ps := PatchesOf(acts[..n], id);
      InvStep(before, acts[n]);
      AnsweredStep(before, acts[n], id, LastHttpStatus(ps, http), LastCode(ps, code), LastMessage(ps, message),
                   LastError(ps, error), LastClock(acts[..n], id, at));
      NothingSet(LastHttpStatus(ps, http), LastCode(ps, code), LastMessage(ps, message), LastError(ps, error));
      if acts[n].Update? && acts[n].id == id {
        LastOfSnoc(ps, acts[n].p, http, code, message, error);
      }
    }
  }

  lemma NothingSet(http: int, code: string, message: string, error: string)
    ensures LastHttpStatus([], http) == http && LastCode([], code) == code
    ensures LastMessage([], message) == message && LastError([], error) == error
  {
  }

  lemma BeginAnswered(t: Table, fields: R.Record, now: R.Time)
    requires Inv(t)
    ensures var u := Apply(t, Begin(fields, now));
            Inv(u) && Answered(u, t.ring.last + 1, fields.httpStatus, fields.code, fields.message, fields.error, now)
  {
    BegunRecord(t, fields, now);
  }

  /* ---- Settling one record ---- */

  // Between two updates the poller finds the nearest fitting record and its verdict is what this record
  // then shows; nothing else about any record changes.
  lemma FindThenSettle(t: Table, q: R.Query, i: int, result: R.Result, payout: real, settledAt: Option<R.Time>)
    requires Inv(t) && t.matched == None && q.window > 0 && R.Nearest(t.ring.recs, q, i) && result != R.Unset
    ensures Runs(t, [Find(q), Settle(result, payout, settledAt)])
    ensures var u := Exec(t, [Find(q), Settle(result, payout, settledAt)]);
            && u.matched == None && |u.ring.recs| == |t.ring.recs|
            && u.ring.recs[i] == t.ring.recs[i].(result := result, payout := payout,
                                                 settledAt := if result == R.Undecided then None else settledAt)
            && forall k | 0 <= k < |t.ring.recs| && k != i :: u.ring.recs[k] == t.ring.recs[k]
  {
    R.NearestIsBest(t.ring.recs, q, i);
    R.IndexOfId(t.ring, i);
    var t1 := Apply(t, Find(q));
    var a := Settle(result, payout, settledAt);
    assert t1.matched == Some(t.ring.recs[i].id);
    var t2 := Apply(t1, a);
    assert Runs(t2, []) && Exec(t2, []) == t2;
    hide Apply, Runs, Exec;
    RunsCons(t1, a, []);
    RunsCons(t, Find(q), [a] + []);
    assert [Find(q), a] == [Find(q)] + ([a] + []);
  }

  lemma RunsCons(t: Table, a: Action, rest: seq<Action>)
    requires Enabled(t, a) && Runs(Apply(t, a), rest)
    ensures Runs(t, [a] + rest) && Exec(t, [a] + rest) == Exec(Apply(t, a), rest)
  {
    hide Apply, Enabled;
    assert ([a] + rest)[1..] == rest;
  }
}
