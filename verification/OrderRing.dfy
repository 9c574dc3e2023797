/** The order table as a value: a bounded ring of records, oldest first, and what each operation of
    the store makes of it. Times are nanoseconds; an amount is the parsed text (None: not a number). */
module OrderRing {
  import opened Options

  type Time = int

  datatype Status = Pending | Retrying | Success | Failed

  datatype Result = Unset | Undecided | Loss | Win | Other(text: string)

  datatype Details = Details(account: string, strategy: string, action: string, symbol: string,
                             platform: string, source: string)

  datatype Record = Record(
    id: int, time: Time, updatedAt: Time, durationMs: int,
    details: Details, taskId: string, period: string, amount: Option<real>,
    status: Status, httpStatus: int, code: string, message: string, error: string, attempts: int,
    result: Result, payout: real, settledAt: Option<Time>)

  datatype Ring = Ring(max: nat, last: int, recs: seq<Record>, dirty: bool)

  // The changes PlaceOrder passes to Update.
  datatype Patch =
    | SetAttempts(attempts: int) | SetHttpStatus(httpStatus: int) | SetReply(code: string, message: string)
    | SetRetrying | Finish(failure: Option<string>)

  function ApplyPatch(p: Patch, r: Record): Record {
    match p
    case SetAttempts(n) => r.(attempts := n)
    case SetHttpStatus(n) => r.(httpStatus := n)
    case SetReply(code, message) => r.(code := code, message := message)
    case SetRetrying => r.(status := Retrying)
    case Finish(None) => r.(status := Success)
    case Finish(Some(e)) => r.(status := Failed, error := e)
  }

  // Go's integer division by one million.
  function Milliseconds(d: int): int { if d >= 0 then d / 1_000_000 else -((-d) / 1_000_000) }

  function Touch(r: Record, now: Time): Record {
    r.(updatedAt := now, durationMs := Milliseconds(now - r.time))
  }

  function Trim(recs: seq<Record>, max: nat): seq<Record> {
    if |recs| > max then recs[|recs| - max..] else recs
  }

  function NewRecord(fields: Record, id: int, now: Time): Record {
    fields.(id := id, time := now, updatedAt := now, status := Pending, durationMs := 0)
  }

  function Begin(s: Ring, fields: Record, now: Time): Ring {
    s.(last := s.last + 1, recs := Trim(s.recs + [NewRecord(fields, s.last + 1, now)], s.max), dirty := true)
  }

  // The newest record with this id.
  function LastIndex(recs: seq<Record>, id: int): (i: int)
    ensures -1 <= i < |recs|
    ensures i >= 0 ==> recs[i].id == id
    ensures forall j | i < j < |recs| :: recs[j].id != id
  {
    if recs == [] then -1
    else if recs[|recs| - 1].id == id then |recs| - 1
    else LastIndex(recs[..|recs| - 1], id)
  }

  function Update(s: Ring, id: int, p: Patch, now: Time): Ring {
    var i := LastIndex(s.recs, id);
    if id == 0 || i < 0 then s
    else s.(recs := s.recs[i := Touch(ApplyPatch(p, s.recs[i]), now)], dirty := true)
  }

  function Settle(r: Record, result: Result, payout: real, settledAt: Option<Time>): Record {
    r.(result := result, payout := payout, settledAt := if result == Undecided then None else settledAt)
  }

  function SetResult(s: Ring, id: int, result: Result, payout: real, settledAt: Option<Time>): Ring {
    var i := LastIndex(s.recs, id);
    if id == 0 || result == Unset || i < 0 then s
    else s.(recs := s.recs[i := Settle(s.recs[i], result, payout, settledAt)], dirty := true)
  }

  /* ---- FindMatch ---- */

  // What a settlement looks for.
  datatype Query = Query(taskId: string, amount: real, at: Time, window: Time)

  function Abs(x: real): real { if x < 0.0 then -x else x }

  function Gap(r: Record, at: Time): Time { if r.time >= at then r.time - at else at - r.time }

  // Same account and amount: the part of the search that no update ever changes.
  predicate SameOrder(r: Record, q: Query) {
    r.taskId == q.taskId && r.amount.Some? && Abs(r.amount.value - q.amount) <= 0.01
  }

  predicate Open(r: Record) { r.result == Unset || r.result == Undecided || r.result == Loss }

  predicate Fits(r: Record, q: Query) { SameOrder(r, q) && Gap(r, q.at) <= q.window }

  predicate Candidate(r: Record, q: Query) { Fits(r, q) && Open(r) }

  function Best(recs: seq<Record>, q: Query): (i: int)
    ensures -1 <= i < |recs|
    ensures i >= 0 ==> Candidate(recs[i], q)
  {
    if recs == [] then -1
    else
      var n := |recs| - 1;
      var b := Best(recs[..n], q);
      var bound := if b >= 0 then Gap(recs[b], q.at) else q.window;
      if Open(recs[n]) && SameOrder(recs[n], q) && Gap(recs[n], q.at) <= bound
      then n else b
  }

  // Nearest in time among the candidates; of equally near ones the newest.
  ghost predicate Nearest(recs: seq<Record>, q: Query, i: int) {
    && 0 <= i < |recs| && Candidate(recs[i], q)
    && forall j | 0 <= j < |recs| && Candidate(recs[j], q) ::
         Gap(recs[i], q.at) <= Gap(recs[j], q.at) && (j > i ==> Gap(recs[i], q.at) < Gap(recs[j], q.at))
  }

  lemma {:induction false} BestIsNearest(recs: seq<Record>, q: Query)
    ensures Best(recs, q) >= 0 ==> Nearest(recs, q, Best(recs, q))
    ensures Best(recs, q) < 0 ==> forall j | 0 <= j < |recs| :: !Candidate(recs[j], q)
  {
    if recs != [] {
      var n := |recs| - 1;
      BestIsNearest(recs[..n], q);
      assert forall j | 0 <= j < n :: recs[..n][j] == recs[j];
    }
  }

  lemma NearestIsBest(recs: seq<Record>, q: Query, i: int)
    requires Nearest(recs, q, i)
    ensures Best(recs, q) == i
  {
    BestIsNearest(recs, q);
  }

  function FindMatch(recs: seq<Record>, q: Query): (int, string, bool) {
    var b := Best(recs, q);
    if q.window <= 0 || b < 0 then (0, "", false) else (recs[b].id, recs[b].period, recs[b].id != 0)
  }

  /* ---- Ids ---- */

  // Ids ascend along the ring and are never reused while a record that carries them is in it.
  ghost predicate IdsSorted(s: Ring) {
    && s.last >= 0
    && (forall i | 0 <= i < |s.recs| :: 0 < s.recs[i].id <= s.last)
    && (forall i, j | 0 <= i < j < |s.recs| :: s.recs[i].id < s.recs[j].id)
  }

  ghost predicate Valid(s: Ring) { IdsSorted(s) && |s.recs| <= s.max && s.max > 0 }

  lemma BeginValid(s: Ring, fields: Record, now: Time)
    requires Valid(s)
    ensures Valid(Begin(s, fields, now))
    ensures Begin(s, fields, now).recs != [] &&
            Begin(s, fields, now).recs[|Begin(s, fields, now).recs| - 1] == NewRecord(fields, s.last + 1, now)
    ensures forall r | r in s.recs :: r.id != s.last + 1
  {
  }

  // Beginning an order keeps the newest records, as many as the bound allows.
  lemma BeginKeepsNewest(s: Ring, fields: Record, now: Time)
    requires Valid(s)
    ensures var recs := Begin(s, fields, now).recs;
            && |recs| == (if |s.recs| < s.max then |s.recs| + 1 else s.max)
            && Begin(s, fields, now).max == s.max && Begin(s, fields, now).dirty
            && recs[|recs| - 1].id == s.last + 1
            && forall k | 0 <= k < |recs| - 1 :: recs[k] == s.recs[k + |s.recs| + 1 - |recs|]
  {
  }

  // Changes in place leave every other record and the ring as they are.
  lemma ChangesOneRecord(s: Ring, id: int, p: Patch, now: Time, result: Result, payout: real, settledAt: Option<Time>)
    requires Valid(s)
    ensures var u := Update(s, id, p, now);
            u.max == s.max && u.last == s.last && |u.recs| == |s.recs| &&
            forall k | 0 <= k < |s.recs| && s.recs[k].id != id :: u.recs[k] == s.recs[k]
    ensures var u := SetResult(s, id, result, payout, settledAt);
            u.max == s.max && u.last == s.last && |u.recs| == |s.recs| &&
            forall k | 0 <= k < |s.recs| && s.recs[k].id != id :: u.recs[k] == s.recs[k]
    ensures Update(s, id, p, now) != s ==> Update(s, id, p, now).dirty
    ensures SetResult(s, id, result, payout, settledAt) != s ==> SetResult(s, id, result, payout, settledAt).dirty
  {
  }

  lemma IndexOfId(s: Ring, i: nat)
    requires IdsSorted(s) && i < |s.recs|
    ensures LastIndex(s.recs, s.recs[i].id) == i
  {
  }

  /* ---- Loading ---- */

  function MaxId(recs: seq<Record>, floor: int): int {
    if recs == [] then floor
    else
      var m := MaxId(recs[..|recs| - 1], floor);
      if recs[|recs| - 1].id > m then recs[|recs| - 1].id else m
  }

  lemma {:induction false} MaxIdBounds(recs: seq<Record>, floor: int)
    ensures MaxId(recs, floor) >= floor
    ensures forall i | 0 <= i < |recs| :: recs[i].id <= MaxId(recs, floor)
  {
    if recs != [] {
      MaxIdBounds(recs[..|recs| - 1], floor);
      assert forall i | 0 <= i < |recs| - 1 :: recs[..|recs| - 1][i] == recs[i];
    }
  }

  // What a disk file is to a reader: absent, unreadable, or a saved table.
  datatype DiskFile = Missing | Corrupt | Saved(records: seq<Record>)

  function Reload(f: DiskFile, max: nat): seq<Record> {
    if f.Saved? then Trim(f.records, max) else []
  }

  function Load(f: DiskFile, max: nat): Ring {
    Ring(max, MaxId(Reload(f, max), 0), Reload(f, max), false)
  }

  // Loading keeps the newest records up to the bound, in order, and continues behind their largest id;
  // an absent or unreadable file is an empty history.
  lemma LoadKeepsNewest(f: DiskFile, max: nat)
    ensures !f.Saved? ==> Load(f, max) == Ring(max, 0, [], false)
    ensures f.Saved? ==>
      var recs := Load(f, max).recs;
      && |recs| == (if |f.records| < max then |f.records| else max)
      && (forall k | 0 <= k < |recs| :: recs[k] == f.records[k + |f.records| - |recs|])
      && (forall k | 0 <= k < |recs| :: recs[k].id <= Load(f, max).last)
      && Load(f, max).last >= 0
    ensures Load(f, max).max == max && !Load(f, max).dirty
  {
    MaxIdBounds(Reload(f, max), 0);
  }

  // A table saved by a valid store loads into a valid one whose next id is new.
  lemma LoadValid(s: Ring, max: nat)
    requires Valid(s) && max > 0
    ensures Valid(Load(Saved(s.recs), max))
    ensures max >= s.max ==> Load(Saved(s.recs), max).recs == s.recs
  {
    MaxIdBounds(Reload(Saved(s.recs), max), 0);
  }
}
