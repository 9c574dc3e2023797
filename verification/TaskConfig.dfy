/** Preparing the configured accounts: every task gets an id of its own before it runs, because the
    id keys the skip counters and the balances. */
module TaskConfig {
  import opened Options
  import opened Text
  import opened TimeWindows
  import A = AccountAuth

  datatype Task = Task(id: string, name: string, kind: string, auth: Option<A.Auth>, timeRanges: seq<TimeRange>)

  predicate IsBlank(id: string) { TrimSpace(id) == "" }

  function TaskName(n: nat): string { "task-" + Decimal(n) }

  lemma TaskNamesDiffer(m: nat, n: nat)
    ensures TaskName(m) == TaskName(n) ==> m == n
  {
    assert TaskName(m)[5..] == Decimal(m) && TaskName(n)[5..] == Decimal(n);
    ReadOfDecimal(m);
    ReadOfDecimal(n);
  }

  lemma TaskNameIsTrimmed(n: nat)
    ensures TrimSpace(TaskName(n)) == TaskName(n) && !IsBlank(TaskName(n))
  {
    var d := Decimal(n);
    assert TaskName(n)[0] == 't';
    assert TaskName(n)[|TaskName(n)| - 1] == d[|d| - 1] && d[|d| - 1] in d;
  }

  /* ---- The search for a free name ---- */

  // id is the first task name from `first` on that is not in use; the search looked at no more
  // than |used| + 1 candidates.
  ghost predicate FirstFree(used: set<string>, first: nat, id: string) {
    id !in used &&
    exists n: nat ::
      && first <= n <= first + |used| && id == TaskName(n)
      && forall m: nat | first <= m < n :: TaskName(m) in used
  }

  lemma SubsetSize(a: set<string>, b: set<string>)
    requires a <= b
    ensures |a| <= |b|
  {
    assert b == a + (b - a);
  }

  method FreshID(used: set<string>, first: nat) returns (id: string)
    ensures FirstFree(used, first, id)
  {
    var n := first;
    ghost var tried: set<string> := {};
    while TaskName(n) in used
      invariant first <= n && tried <= used && |tried| == n - first
      invariant forall m: nat | first <= m < n :: TaskName(m) in tried
      invariant forall c | c in tried :: exists m: nat :: first <= m < n && c == TaskName(m)
      decreases |used| - |tried|
    {
      hide Decimal, TaskName;
      forall m: nat | first <= m < n ensures TaskName(m) != TaskName(n) {
        TaskNamesDiffer(m, n);
      }
      tried := tried + {TaskName(n)};
      SubsetSize(tried, used);
      n := n + 1;
    }
    SubsetSize(tried, used);
    id := TaskName(n);
  }

  /* ---- What preparing means ---- */

  // The ids the operator set by hand, reserved before any is generated.
  function Reserved(was: seq<Task>): set<string> {
    set i | 0 <= i < |was| && !IsBlank(was[i].id) :: TrimSpace(was[i].id)
  }

  // Names taken when the first |done| tasks are prepared.
  function Taken(was: seq<Task>, done: seq<Task>): set<string>
    requires |done| <= |was|
  {
    Reserved(was) + set i | 0 <= i < |done| && IsBlank(was[i].id) :: done[i].id
  }

  // t is task |done| of `was`, prepared after the tasks before it.
  ghost predicate Next(was: seq<Task>, done: seq<Task>, t: Task)
    requires |done| < |was|
  {
    var w := was[|done|];
    && (if IsBlank(w.id) then FirstFree(Taken(was, done), |done| + 1, t.id) else t.id == w.id)
    && t.name == (if w.name == "" then t.id else w.name)
    && t.timeRanges == Normalize(w.timeRanges)
    && t.kind == w.kind && t.auth == Some(A.Normalized(w.kind, w.auth))
  }

  ghost predicate PreparedFrom(was: seq<Task>, done: seq<Task>)
    requires |done| <= |was|
  {
    done == [] || (PreparedFrom(was, done[..|done| - 1]) && Next(was, done[..|done| - 1], done[|done| - 1]))
  }

  predicate Valid(t: Task) { ValidRanges(Normalize(t.timeRanges)) }

  datatype Outcome = Ready | Invalid(index: nat) | Duplicate(index: nat, previous: nat)

  ghost predicate DistinctIds(tasks: seq<Task>) {
    forall i, j | 0 <= i < j < |tasks| :: tasks[i].id != tasks[j].id
  }

  /* ---- The operation ---- */

  method ReserveIDs(tasks: array<Task>) returns (used: set<string>)
    ensures used == Reserved(tasks[..])
  {
    hide TrimSpace;
    used := {};
    for i := 0 to tasks.Length
      invariant used == Reserved(tasks[..i])
    {
      var id := TrimSpace(tasks[i].id);
      assert tasks[..i + 1] == tasks[..i] + [tasks[i]];
      ReservedSnoc(tasks[..i], tasks[i]);
      if id != "" {
        used := used + {id};
      }
    }
    assert tasks[..tasks.Length] == tasks[..];
  }

  lemma ReservedSnoc(was: seq<Task>, t: Task)
    ensures Reserved(was + [t]) == Reserved(was) + if IsBlank(t.id) then {} else {TrimSpace(t.id)}
  {
    hide TrimSpace, IsBlank;
    var all := was + [t];
    assert all[|was|] == t;
    forall id | id in Reserved(was) ensures id in Reserved(all) {
      var i :| 0 <= i < |was| && !IsBlank(was[i].id) && id == TrimSpace(was[i].id);
      assert all[i] == was[i];
    }
  }

  lemma TakenSnoc(was: seq<Task>, done: seq<Task>, t: Task)
    requires |done| < |was|
    ensures Taken(was, done + [t]) == Taken(was, done) + if IsBlank(was[|done|].id) then {t.id} else {}
  {
    hide TrimSpace, IsBlank, Reserved;
    var all := done + [t];
    assert all[|done|] == t;
    forall id | id in Taken(was, done) ensures id in Taken(was, all) {
      if id !in Reserved(was) {
        var i :| 0 <= i < |done| && IsBlank(was[i].id) && id == done[i].id;
        assert all[i] == done[i];
      }
    }
  }

  // One round of the loop: an id if it has none, then its name, its ranges and its tokens.
  method PrepareOne(task: Task, index: nat, used: set<string>) returns (out: Task, usedAfter: set<string>)
    ensures out.name == (if task.name == "" then out.id else task.name)
    ensures out.timeRanges == Normalize(task.timeRanges)
    ensures out.kind == task.kind && out.auth == Some(A.Normalized(task.kind, task.auth))
    ensures if IsBlank(task.id) then FirstFree(used, index + 1, out.id) && usedAfter == used + {out.id}
            else out.id == task.id && usedAfter == used
  {
    out, usedAfter := task, used;
    if TrimSpace(task.id) == "" {
      var candidate := FreshID(used, index + 1);
      out := out.(id := candidate);
      usedAfter := used + {candidate};
    }
    if out.name == "" {
      out := out.(name := out.id);
    }
    var ranges := NormalizeTimeRanges(task.timeRanges);
    var auth := A.NormalizeAuth(task.kind, task.auth);
    out := out.(timeRanges := ranges, auth := Some(auth));
  }

  method FindDuplicate(tasks: array<Task>) returns (outcome: Outcome)
    ensures outcome == Ready || outcome.Duplicate?
    ensures outcome == Ready <==> DistinctIds(tasks[..])
    ensures outcome.Duplicate? ==>
      (outcome.previous < outcome.index < tasks.Length && DistinctIds(tasks[..outcome.index])
      && tasks[outcome.previous].id == tasks[outcome.index].id)
  {
    var seen: map<string, nat> := map[];
    for i := 0 to tasks.Length
      invariant DistinctIds(tasks[..i])
      invariant forall id | id in seen :: seen[id] < i && tasks[seen[id]].id == id
      invariant forall j | 0 <= j < i :: tasks[j].id in seen
    {
      if tasks[i].id in seen {
        ghost var all := tasks[..];
        assert all[seen[tasks[i].id]].id == all[i].id;
        return Duplicate(i, seen[tasks[i].id]);
      }
      seen := seen[tasks[i].id := i];
    }
    assert tasks[..tasks.Length] == tasks[..];
    return Ready;
  }

  // Tasks before `stop` had usable ranges; `upTo` of them were prepared and the rest left alone.
  ghost predicate Progress(was: seq<Task>, now: seq<Task>, stop: nat, upTo: nat)
    requires stop <= upTo <= |was| == |now|
  {
    PreparedFrom(was, now[..upTo]) && now[upTo..] == was[upTo..] && forall k | 0 <= k < stop :: Valid(was[k])
  }

  lemma ProgressSnoc(was: seq<Task>, now: seq<Task>, i: nat, t: Task)
    requires i < |was| == |now| && Progress(was, now, i, i) && Next(was, now[..i], t)
    ensures now[i] == was[i]
    ensures Progress(was, now[i := t], i, i + 1)
    ensures Taken(was, now[i := t][..i + 1]) ==
            Taken(was, now[..i]) + if IsBlank(was[i].id) then {t.id} else {}
  {
    hide Next, Taken, IsBlank, Valid;
    assert now[i] == now[i..][0] == was[i..][0];
    assert now[i := t][..i + 1] == now[..i] + [t];
    assert now[i := t][i + 1..] == was[i..][1..];
    TakenSnoc(was, now[..i], t);
  }

  method PrepareTasks(tasks: array<Task>) returns (outcome: Outcome)
    modifies tasks
    // The first task with unusable ranges stops the loop; the tasks behind it stay as they were.
    ensures outcome.Invalid? ==>
      (outcome.index < tasks.Length && !Valid(old(tasks[..])[outcome.index])
      && Progress(old(tasks[..]), tasks[..], outcome.index, outcome.index + 1))
    ensures !outcome.Invalid? ==> Progress(old(tasks[..]), tasks[..], tasks.Length, tasks.Length)
    ensures outcome.Duplicate? ==>
      (outcome.previous < outcome.index < tasks.Length && DistinctIds(tasks[..outcome.index])
      && tasks[outcome.previous].id == tasks[outcome.index].id)
    ensures outcome == Ready ==> DistinctIds(tasks[..])
  {
    hide TrimSpace, Normalize, ValidRanges, Reserved, FirstFree, IsBlank, PreparedFrom, Taken, DistinctIds;
    hide A.Normalized;
    ghost var was := tasks[..];
    var used := ReserveIDs(tasks);
    TakenNothing(was);
    for i := 0 to tasks.Length
      invariant Progress(was, tasks[..], i, i) && used == Taken(was, tasks[..][..i])
    {
      ghost var now := tasks[..];
      var t, after := PrepareOne(tasks[i], i, used);
      assert now[i] == was[i] == now[i..][0] == was[i..][0];
      ProgressSnoc(was, now, i, t);
      tasks[i] := t;
      assert tasks[..] == now[i := t];
      used := after;
      var ok := ValidateTask(t.timeRanges);
      if !ok {
        return Invalid(i);
      }
    }
    outcome := FindDuplicate(tasks);
  }

  lemma TakenNothing(was: seq<Task>)
    ensures Taken(was, was[..0]) == Reserved(was) && Progress(was, was, 0, 0)
  {
  }

  /* ---- What it gives the rest of the system ---- */

  lemma {:induction false} PreparedAt(was: seq<Task>, done: seq<Task>, k: nat)
    requires |done| <= |was| && PreparedFrom(was, done) && k < |done|
    ensures Next(was, done[..k], done[k])
  {
    if k < |done| - 1 {
      PreparedAt(was, done[..|done| - 1], k);
      assert done[..|done| - 1][..k] == done[..k];
    }
  }

  // A generated id clashes with no other id, generated or explicit.
  lemma GeneratedNeverClashes(was: seq<Task>, done: seq<Task>, j: nat, k: nat)
    requires |done| == |was| && PreparedFrom(was, done) && j < k < |done|
    requires IsBlank(was[j].id) || IsBlank(was[k].id)
    ensures done[j].id != done[k].id
  {
    PreparedAt(was, done, j);
    PreparedAt(was, done, k);
    if IsBlank(was[k].id) {
      if IsBlank(was[j].id) {
        assert done[..k][j].id in Taken(was, done[..k]);
      } else {
        GeneratedIsTrimmed(Taken(was, done[..k]), k + 1, done[k].id);
        assert TrimSpace(was[j].id) in Reserved(was);
      }
    } else {
      GeneratedIsTrimmed(Taken(was, done[..j]), j + 1, done[j].id);
      assert TrimSpace(was[k].id) in Reserved(was);
    }
  }

  lemma GeneratedIsTrimmed(used: set<string>, first: nat, id: string)
    requires FirstFree(used, first, id)
    ensures TrimSpace(id) == id && !IsBlank(id)
  {
    var n: nat :| first <= n <= first + |used| && id == TaskName(n);
    TaskNameIsTrimmed(n);
  }

  lemma PreparedIdAt(was: seq<Task>, done: seq<Task>, k: nat)
    requires |done| == |was| && PreparedFrom(was, done) && k < |done|
    ensures !IsBlank(done[k].id) && (!IsBlank(was[k].id) ==> done[k].id == was[k].id)
  {
    hide TrimSpace, IsBlank, FirstFree, Taken, PreparedFrom;
    PreparedAt(was, done, k);
    if IsBlank(was[k].id) {
      GeneratedIsTrimmed(Taken(was, done[..k]), k + 1, done[k].id);
    }
  }

  // Everything else about a prepared account: the name it is shown under, its kind, ranges and tokens.
  lemma PreparedFields(was: seq<Task>, done: seq<Task>, k: nat)
    requires |done| == |was| && PreparedFrom(was, done) && k < |done|
    ensures done[k].name != "" && done[k].name in {was[k].name, done[k].id}
    ensures was[k].name != "" ==> done[k].name == was[k].name
    ensures done[k].kind == was[k].kind && done[k].timeRanges == Normalize(was[k].timeRanges)
    ensures done[k].auth == Some(A.Normalized(was[k].kind, was[k].auth))
  {
    hide Normalize, PreparedFrom, FirstFree, Taken, A.Normalized, TrimSpace;
    PreparedAt(was, done, k);
    PreparedIdAt(was, done, k);
    assert TrimSpace("") == "" by { A.TrimOfEmpty(); }
  }

  // After preparing, all ids are non-blank, and two are equal iff the operator wrote the same
  // non-blank id twice; generated ids never cause the duplicate error.
  lemma PreparedIds(was: seq<Task>, done: seq<Task>)
    requires |done| == |was| && PreparedFrom(was, done)
    ensures forall k | 0 <= k < |done| :: !IsBlank(done[k].id)
    ensures forall k | 0 <= k < |done| && !IsBlank(was[k].id) :: done[k].id == was[k].id
    ensures DistinctIds(done) <==>
            forall j, k | 0 <= j < k < |was| && !IsBlank(was[j].id) && !IsBlank(was[k].id) :: was[j].id != was[k].id
  {
    hide TrimSpace, IsBlank, FirstFree, Taken, PreparedFrom;
    forall k | 0 <= k < |done|
      ensures !IsBlank(done[k].id) && (!IsBlank(was[k].id) ==> done[k].id == was[k].id)
    {
      PreparedIdAt(was, done, k);
    }
    forall j, k | 0 <= j < k < |was| && (IsBlank(was[j].id) || IsBlank(was[k].id))
      ensures done[j].id != done[k].id
    {
      GeneratedNeverClashes(was, done, j, k);
    }
  }

  // A generated id counts from the account's place in the list, and skips a number only if that name is
  // another account's id.
  lemma GeneratedIsLeast(was: seq<Task>, done: seq<Task>, k: nat) returns (n: nat)
    requires |done| == |was| && PreparedFrom(was, done) && k < |done| && IsBlank(was[k].id)
    ensures n > k && done[k].id == "task-" + Decimal(n)
    ensures forall m | k < m < n ::
              exists j :: 0 <= j < |was| && j != k && TrimSpace(done[j].id) == "task-" + Decimal(m)
  {
    hide TrimSpace, IsBlank, PreparedFrom, Decimal;
    PreparedAt(was, done, k);
    n :| k + 1 <= n && done[k].id == TaskName(n)
         && forall m: nat | k + 1 <= m < n :: TaskName(m) in Taken(was, done[..k]);
    forall m | k < m < n
      ensures exists j :: 0 <= j < |was| && j != k && TrimSpace(done[j].id) == "task-" + Decimal(m)
    {
      assert TaskName(m) in Taken(was, done[..k]);
      var j := TakenBy(was, done, k, m);
    }
  }

  lemma TakenBy(was: seq<Task>, done: seq<Task>, k: nat, m: nat) returns (j: nat)
    requires |done| == |was| && PreparedFrom(was, done) && k < |done| && IsBlank(was[k].id)
    requires TaskName(m) in Taken(was, done[..k])
    ensures j < |was| && j != k && TrimSpace(done[j].id) == TaskName(m)
  {
    hide TrimSpace, PreparedFrom, TaskName, FirstFree;
    if TaskName(m) in Reserved(was) {
      j :| 0 <= j < |was| && !IsBlank(was[j].id) && TrimSpace(was[j].id) == TaskName(m);
      PreparedIdAt(was, done, j);
    } else {
      j :| 0 <= j < k && IsBlank(was[j].id) && done[..k][j].id == TaskName(m);
      TaskNameIsTrimmed(m);
    }
  }

  lemma FreeAtOnce(used: set<string>, first: nat, id: string)
    requires FirstFree(used, first, id) && TaskName(first) !in used
    ensures id == TaskName(first)
  {
    hide TaskName;
  }

  lemma TakenAmongBlank(was: seq<Task>, done: seq<Task>, m: nat) returns (i: nat)
    requires |done| <= |was| && TaskName(m) in Taken(was, done)
    requires forall i | 0 <= i < |was| :: IsBlank(was[i].id)
    ensures i < |done| && done[i].id == TaskName(m)
  {
    hide IsBlank, TrimSpace, TaskName;
    i :| 0 <= i < |done| && IsBlank(was[i].id) && done[i].id == TaskName(m);
  }

  // So an operator who names nothing gets task-1, task-2 and so on.
  lemma {:induction false} UnnamedAreCounted(was: seq<Task>, done: seq<Task>, k: nat)
    requires |done| == |was| && PreparedFrom(was, done) && k < |done|
    requires forall i | 0 <= i < |was| :: IsBlank(was[i].id)
    ensures done[k].id == "task-" + Decimal(k + 1)
  {
    hide TrimSpace, IsBlank, PreparedFrom, Decimal, Taken, FirstFree;
    PreparedAt(was, done, k);
    if TaskName(k + 1) in Taken(was, done[..k]) {
      var i := TakenAmongBlank(was, done[..k], k + 1);
      UnnamedAreCounted(was, done, i);
      TaskNamesDiffer(i + 1, k + 1);
      assert false;
    } else {
      FreeAtOnce(Taken(was, done[..k]), k + 1, done[k].id);
    }
  }

  // Preparing one prepared account again only normalises its tokens once more.
  lemma PreparedAgainAt(was: seq<Task>, done: seq<Task>, again: seq<Task>, k: nat)
    requires |done| == |was| && PreparedFrom(was, done) && |again| <= |done| && PreparedFrom(done, again) && k < |again|
    ensures again[k] == done[k].(auth := Some(A.Normalized(done[k].kind, done[k].auth)))
    ensures again[k] == done[k] <==> A.Stable(was[k].kind, was[k].auth)
  {
    hide TrimSpace, IsBlank, FirstFree, Taken, Normalize, PreparedFrom, A.Normalized, A.Stable;
    PreparedIdAt(was, done, k);
    PreparedAt(was, done, k);
    PreparedAt(done, again, k);
    NormalizeIsNormal(was[k].timeRanges);
    NormalIsFixed(done[k].timeRanges);
    A.NormalizeAgainIff(was[k].kind, was[k].auth);
  }

  // Preparing an already prepared configuration keeps every id, name and range, and changes nothing at
  // all if and only if no token comes out of a cookie with a leading space.
  lemma PreparingAgainChangesNothing(was: seq<Task>, done: seq<Task>, again: seq<Task>)
    requires |done| == |was| && PreparedFrom(was, done) && |again| <= |done| && PreparedFrom(done, again)
    ensures forall k | 0 <= k < |again| :: again[k] == done[k].(auth := again[k].auth)
    ensures again == done[..|again|] <==> forall k | 0 <= k < |again| :: A.Stable(was[k].kind, was[k].auth)
  {
    hide PreparedFrom, A.Normalized, A.Stable;
    forall k | 0 <= k < |again|
      ensures again[k] == done[k].(auth := again[k].auth)
      ensures again[k] == done[..|again|][k] <==> A.Stable(was[k].kind, was[k].auth)
    {
      PreparedAgainAt(was, done, again, k);
    }
  }
}
