/** The order-record store: each method is one critical section, tied to the ring operation of the
    same name. */
module OrderStore {
  import opened Options
  import R = OrderRing

  const DEFAULT_MAX := 200

  class Store {
    var max: nat
    var last: int
    var recs: seq<R.Record>
    var dirty: bool

    function View(): R.Ring
      reads this
    {
      R.Ring(max, last, recs, dirty)
    }

    constructor (max: int)
      ensures View() == R.Ring(if max <= 0 then 200 else max, 0, [], false)
      ensures R.Valid(View())
    {
      this.max := if max <= 0 then DEFAULT_MAX else max;
      last, recs, dirty := 0, [], false;
    }

    // The saved table, cut to the newest max records; ids continue after its largest.
    method Load(file: R.DiskFile)
      requires recs == [] && last == 0 && !dirty
      modifies this`last, this`recs
      ensures View() == R.Load(file, max)
    {
      if !file.Saved? {
        return;
      }
      var loaded := file.records;
      if |loaded| > max {
        loaded := loaded[|loaded| - max..];
      }
      for i := 0 to |loaded|
        invariant recs == loaded[..i] && last == R.MaxId(loaded[..i], 0)
      {
        assert loaded[..i + 1][..i] == loaded[..i];
        if loaded[i].id > last {
          last := loaded[i].id;
        }
        recs := recs + [loaded[i]];
      }
      assert loaded[..|loaded|] == loaded;
    }

    method Begin(fields: R.Record, now: R.Time) returns (id: int)
      modifies this`last, this`recs, this`dirty
      ensures View() == R.Begin(old(View()), fields, now) && id == last
      ensures R.Valid(old(View())) ==> R.Valid(View()) && forall r | r in old(recs) :: r.id != id
    {
      if R.Valid(View()) {
        R.BeginValid(View(), fields, now);
      }
      last := last + 1;
      recs := recs + [R.NewRecord(fields, last, now)];
      if |recs| > max {
        recs := recs[|recs| - max..];
      }
      dirty := true;
      id := last;
    }

    // The backward scan shared by Update and SetResult.
    method Find(id: int) returns (i: int)
      ensures i == R.LastIndex(recs, id)
    {
      i := |recs| - 1;
      while i >= 0
        invariant -1 <= i < |recs|
        invariant R.LastIndex(recs, id) == R.LastIndex(recs[..i + 1], id)
      {
        if recs[i].id == id {
          return;
        }
        assert recs[..i + 1][..i] == recs[..i];
        i := i - 1;
      }
    }

    method Update(id: int, p: R.Patch, now: R.Time)
      modifies this`recs, this`dirty
      ensures View() == R.Update(old(View()), id, p, now)
    {
      if id == 0 {
        return;
      }
      var i := Find(id);
      if i >= 0 {
        var r := R.ApplyPatch(p, recs[i]);
        recs := recs[i := R.Touch(r, now)];
        dirty := true;
      }
    }

    method SetResult(id: int, result: R.Result, payout: real, settledAt: Option<R.Time>)
      modifies this`recs, this`dirty
      ensures View() == R.SetResult(old(View()), id, result, payout, settledAt)
    {
      if id == 0 || result == R.Unset {
        return;
      }
      var i := Find(id);
      if i >= 0 {
        var when := if result == R.Undecided then None else settledAt;
        recs := recs[i := recs[i].(result := result, payout := payout, settledAt := when)];
        dirty := true;
      }
    }

    /** The nearest record in time that fits the query and was not won, the newest among equally near
        ones. */
    method FindMatch(q: R.Query) returns (id: int, period: string, ok: bool)
      ensures (id, period, ok) == R.FindMatch(recs, q)
      ensures ok ==> exists i :: R.Nearest(recs, q, i) && recs[i].id == id && recs[i].period == period
      ensures q.window <= 0 ==> !ok && id == 0 && period == ""
      ensures !ok && q.window > 0 && R.IdsSorted(View()) ==> forall r | r in recs :: !R.Candidate(r, q)
    {
      R.BestIsNearest(recs, q);
      if q.window <= 0 {
        return 0, "", false;
      }
      id, period := 0, "";
      var diff := q.window;
      for i := 0 to |recs|
        invariant var b := R.Best(recs[..i], q);
                  diff == (if b >= 0 then R.Gap(recs[b], q.at) else q.window) &&
                  id == (if b >= 0 then recs[b].id else 0) && period == (if b >= 0 then recs[b].period else "")
      {
        var r := recs[i];
        assert recs[..i + 1][..i] == recs[..i];
        if !R.SameOrder(r, q) || !R.Open(r) {
          continue;
        }
        var d := r.time - q.at;
        if d < 0 {
          d := -d;
        }
        if d <= diff {
          diff, id, period := d, r.id, r.period;
        }
      }
      assert recs[..|recs|] == recs;
      ok := id != 0;
    }

    /** Up to `limit` records, newest first; a limit of zero or less means all. */
    method List(limit: int) returns (out: seq<R.Record>)
      ensures |out| == if 0 < limit < |recs| then limit else |recs|
      ensures forall k | 0 <= k < |out| :: out[k] == recs[|recs| - 1 - k]
    {
      var n := |recs|;
      if 0 < limit < n {
        n := limit;
      }
      out := [];
      var i := |recs| - 1;
      while i >= 0 && |out| < n
        invariant |out| == |recs| - 1 - i <= n && i >= -1
        invariant forall k | 0 <= k < |out| :: out[k] == recs[|recs| - 1 - k]
      {
        out := out + [recs[i]];
        i := i - 1;
      }
    }

    // The bytes to write, if anything changed since the last snapshot.
    method Snapshot() returns (bytes: Option<seq<R.Record>>)
      modifies this`dirty
      ensures bytes == if old(dirty) then Some(recs) else None
      ensures !dirty
    {
      if !dirty {
        return None;
      }
      var copy: seq<R.Record> := [];
      for i := 0 to |recs|
        invariant copy == recs[..i]
      {
        copy := copy + [recs[i]];
      }
      assert copy == recs;
      dirty := false;
      return Some(copy);
    }

    // After a failed write.
    method Rearm()
      modifies this`dirty
      ensures dirty
    {
      dirty := true;
    }
  }
}
