/** Round-robin dispatch: one cursor per group, rotating over the accounts of the highest priority. */
module RoundRobin {
  import opened Options
  import opened Division

  // Go's remainder, which takes the sign of the dividend.
  function Remainder(a: int, n: int): int
    requires n > 0
  {
    if a >= 0 then a % n else -((-a) % n)
  }

  function Cursor(cursors: map<string, int>, key: string): int {
    if key in cursors then cursors[key] else 0
  }

  // The position the cursor stands for in a list of n.
  function Position(cursors: map<string, int>, key: string, n: int): (idx: int)
    ensures 0 <= idx && (n >= 1 ==> idx < n)
  {
    if n <= 1 then 0
    else
      var idx := Remainder(Cursor(cursors, key), n);
      if idx < 0 then idx + n else idx
  }

  // In every case it is the mathematical residue of the cursor, also of a negative one.
  lemma PositionIsResidue(cursors: map<string, int>, key: string, n: int)
    requires n >= 1
    ensures Position(cursors, key, n) == Cursor(cursors, key) % n
  {
    var c := Cursor(cursors, key);
    if c >= 0 {
    } else if (-c) % n == 0 {
      DivMod(c, n, -((-c) / n), 0);
    } else {
      DivMod(c, n, -((-c) / n) - 1, n - (-c) % n);
    }
  }

  function Advance(cursors: map<string, int>, key: string, n: int): map<string, int> {
    if n <= 1 then cursors else cursors[key := (Position(cursors, key, n) + 1) % n]
  }

  /* ---- Priorities ---- */

  datatype Match = Match(account: string, amount: string, priority: int)

  function Top(matched: seq<Match>): int
    requires matched != []
  {
    var n := |matched| - 1;
    if n == 0 || matched[n].priority > Top(matched[..n]) then matched[n].priority else Top(matched[..n])
  }

  function WithPriority(matched: seq<Match>, priority: int): seq<Match> {
    if matched == [] then []
    else
      var n := |matched| - 1;
      var rest := WithPriority(matched[..n], priority);
      if matched[n].priority == priority then rest + [matched[n]] else rest
  }

  function Tier(matched: seq<Match>): seq<Match>
    requires matched != []
  {
    WithPriority(matched, Top(matched))
  }

  lemma {:induction false} WithPriorityIsFilter(matched: seq<Match>, priority: int)
    ensures forall m :: m in WithPriority(matched, priority) <==> m in matched && m.priority == priority
  {
    if matched != [] {
      var n := |matched| - 1;
      WithPriorityIsFilter(matched[..n], priority);
      assert matched == matched[..n] + [matched[n]];
    }
  }

  lemma {:induction false} TopIsMaximum(matched: seq<Match>)
    requires matched != []
    ensures forall m | m in matched :: m.priority <= Top(matched)
    ensures exists m :: m in matched && m.priority == Top(matched)
  {
    var n := |matched| - 1;
    var last := matched[n];
    if n > 0 {
      TopIsMaximum(matched[..n]);
      var best :| best in matched[..n] && best.priority == Top(matched[..n]);
      assert best in matched && last in matched;
      forall m | m in matched ensures m.priority <= Top(matched) {
        InPrefixOrLast(matched, m);
      }
    }
  }

  lemma InPrefixOrLast<T>(s: seq<T>, x: T)
    requires x in s
    ensures x in s[..|s| - 1] || x == s[|s| - 1]
  {
    var i :| 0 <= i < |s| && s[i] == x;
    assert i < |s| - 1 ==> s[..|s| - 1][i] == x;
  }

  // The tier is exactly the accounts of the highest priority: lower ones are never picked.
  lemma TierIsTop(matched: seq<Match>)
    requires matched != []
    ensures Tier(matched) != []
    ensures forall m :: m in Tier(matched) <==> m in matched && forall o | o in matched :: o.priority <= m.priority
  {
    WithPriorityIsFilter(matched, Top(matched));
    TopIsMaximum(matched);
    var m :| m in matched && m.priority == Top(matched);
    assert m in Tier(matched);
  }

  class Cursors {
    var rrCursor: map<string, int>

    constructor ()
      ensures rrCursor == map[]
    {
      rrCursor := map[];
    }

    method NextRoundRobinIndex(key: string, n: int) returns (idx: int)
      modifies this
      ensures idx == Position(old(rrCursor), key, n) && rrCursor == Advance(old(rrCursor), key, n)
    {
      if n <= 1 {
        return 0;
      }
      idx := Remainder(if key in rrCursor then rrCursor[key] else 0, n);
      if idx < 0 {
        idx := idx + n;
      }
      rrCursor := rrCursor[key := Remainder(idx + 1, n)];
    }

    method PickRoundRobinGroupAccount(groupID: string, matched: seq<Match>) returns (m: Match)
      requires matched != []
      modifies this
      ensures Tier(matched) != []
      ensures m == Tier(matched)[Position(old(rrCursor), "group:" + groupID, |Tier(matched)|)]
      ensures rrCursor == Advance(old(rrCursor), "group:" + groupID, |Tier(matched)|)
    {
      var top := matched[0].priority;
      for i := 1 to |matched|
        invariant top == Top(matched[..i])
      {
        assert matched[..i + 1][..i] == matched[..i];
        if matched[i].priority > top {
          top := matched[i].priority;
        }
      }
      assert matched[..|matched|] == matched;
      var tier: seq<Match> := [];
      for i := 0 to |matched|
        invariant tier == WithPriority(matched[..i], top)
      {
        assert matched[..i + 1][..i] == matched[..i];
        if matched[i].priority == top {
          tier := tier + [matched[i]];
        }
      }
      assert tier == Tier(matched);
      TierIsTop(matched);
      var idx := NextRoundRobinIndex("group:" + groupID, |tier|);
      return tier[idx];
    }
  }

  /* ---- The stable sort dispatch applies first ---- */

  function Insert(m: Match, sorted: seq<Match>): seq<Match> {
    if sorted == [] || sorted[|sorted| - 1].priority >= m.priority then sorted + [m]
    else Insert(m, sorted[..|sorted| - 1]) + [sorted[|sorted| - 1]]
  }

  function SortByPriority(matched: seq<Match>): seq<Match> {
    if matched == [] then [] else Insert(matched[|matched| - 1], SortByPriority(matched[..|matched| - 1]))
  }

  ghost predicate Descending(s: seq<Match>) {
    forall i, j | 0 <= i < j < |s| :: s[i].priority >= s[j].priority
  }

  lemma {:induction false} InsertContents(m: Match, sorted: seq<Match>)
    ensures multiset(Insert(m, sorted)) == multiset(sorted) + multiset{m}
  {
    if !(sorted == [] || sorted[|sorted| - 1].priority >= m.priority) {
      var n := |sorted| - 1;
      InsertContents(m, sorted[..n]);
      assert sorted == sorted[..n] + [sorted[n]];
    }
  }

  lemma {:induction false} InsertMembers(m: Match, sorted: seq<Match>, floor: int)
    requires m.priority >= floor && forall i | 0 <= i < |sorted| :: sorted[i].priority >= floor
    ensures forall i | 0 <= i < |Insert(m, sorted)| :: Insert(m, sorted)[i].priority >= floor
  {
    if !(sorted == [] || sorted[|sorted| - 1].priority >= m.priority) {
      InsertMembers(m, sorted[..|sorted| - 1], floor);
    }
  }

  lemma {:induction false} InsertDescending(m: Match, sorted: seq<Match>)
    requires Descending(sorted)
    ensures Descending(Insert(m, sorted))
  {
    if !(sorted == [] || sorted[|sorted| - 1].priority >= m.priority) {
      var n := |sorted| - 1;
      InsertDescending(m, sorted[..n]);
      InsertMembers(m, sorted[..n], sorted[n].priority);
    }
  }

  lemma {:induction false} InsertStable(m: Match, sorted: seq<Match>, priority: int)
    ensures WithPriority(Insert(m, sorted), priority) ==
            if m.priority == priority then WithPriority(sorted, priority) + [m] else WithPriority(sorted, priority)
  {
    if sorted == [] || sorted[|sorted| - 1].priority >= m.priority {
      assert Insert(m, sorted)[..|sorted|] == sorted;
    } else {
      var n := |sorted| - 1;
      InsertStable(m, sorted[..n], priority);
      assert Insert(m, sorted)[..|Insert(m, sorted)| - 1] == Insert(m, sorted[..n]);
    }
  }

  lemma {:induction false} SortDescending(matched: seq<Match>)
    ensures Descending(SortByPriority(matched)) && multiset(SortByPriority(matched)) == multiset(matched)
  {
    hide Insert, Descending;
    if matched == [] {
      NothingSorted();
    } else {
      var n := |matched| - 1;
      SortDescending(matched[..n]);
      InsertDescending(matched[n], SortByPriority(matched[..n]));
      InsertContents(matched[n], SortByPriority(matched[..n]));
      assert matched == matched[..n] + [matched[n]];
    }
  }

  lemma NothingSorted()
    ensures Descending([])
  {
  }

  // Sorting does not reorder accounts of equal priority, so the tier stays in config order.
  lemma {:induction false} SortIsStable(matched: seq<Match>, priority: int)
    ensures WithPriority(SortByPriority(matched), priority) == WithPriority(matched, priority)
  {
    if matched != [] {
      var n := |matched| - 1;
      SortIsStable(matched[..n], priority);
      InsertStable(matched[n], SortByPriority(matched[..n]), priority);
    }
  }

  /* ---- Fairness over runs ---- */

  // One pick: the cursor key and the length of the list it was made from.
  datatype Pick = Pick(key: string, n: int)

  function After(cursors: map<string, int>, picks: seq<Pick>): map<string, int> {
    if picks == [] then cursors
    else
      var before := After(cursors, picks[..|picks| - 1]);
      Advance(before, picks[|picks| - 1].key, picks[|picks| - 1].n)
  }

  // The indices the picks of one key return, in order, whatever other keys are picked in between.
  function Indices(cursors: map<string, int>, picks: seq<Pick>, key: string): seq<int> {
    if picks == [] then []
    else
      var last := picks[|picks| - 1];
      var rest := Indices(cursors, picks[..|picks| - 1], key);
      if last.key == key then rest + [Position(After(cursors, picks[..|picks| - 1]), key, last.n)] else rest
  }

  ghost predicate SameLength(picks: seq<Pick>, key: string, n: int) {
    forall p | p in picks && p.key == key :: p.n == n
  }

  lemma Successor(c: map<string, int>, key: string, n: int)
    requires n >= 1
    ensures Position(Advance(c, key, n), key, n) == (Position(c, key, n) + 1) % n
  {
    if n > 1 {
      var next := (Position(c, key, n) + 1) % n;
      hide Position;
      PositionOf(Advance(c, key, n), key, n, next);
    }
  }

  lemma PositionOf(c: map<string, int>, key: string, n: int, x: int)
    requires n > 1 && key in c && c[key] == x && 0 <= x < n
    ensures Position(c, key, n) == x
  {
    DivMod(x, n, 0, x);
  }

  lemma OtherKeyKept(c: map<string, int>, other: string, m: int, key: string, n: int)
    requires other != key
    ensures Position(Advance(c, other, m), key, n) == Position(c, key, n)
  {
  }

  // The k-th pick of a key is the k-th successor of its first position.
  lemma {:induction false} PicksRotate(cursors: map<string, int>, picks: seq<Pick>, key: string, n: int)
    requires n >= 1 && SameLength(picks, key, n)
    ensures var xs := Indices(cursors, picks, key);
            && Position(After(cursors, picks), key, n) == (Position(cursors, key, n) + |xs|) % n
            && forall k | 0 <= k < |xs| :: xs[k] == (Position(cursors, key, n) + k) % n
  {
    hide Position, Advance;
    if picks == [] {
      DivMod(Position(cursors, key, n), n, 0, Position(cursors, key, n));
    } else {
      var m := |picks| - 1;
      assert picks == picks[..m] + [picks[m]];
      PicksRotate(cursors, picks[..m], key, n);
      var before := After(cursors, picks[..m]);
      var k := |Indices(cursors, picks[..m], key)|;
      if picks[m].key == key {
        assert picks[m] in picks;
        Successor(before, key, n);
        ModSuccessor(Position(cursors, key, n) + k, n);
      } else {
        OtherKeyKept(before, picks[m].key, picks[m].n, key, n);
      }
    }
  }

  /* ---- Counting in a rotation ---- */

  function Count<T(==)>(s: seq<T>, x: T): nat {
    if s == [] then 0 else Count(s[..|s| - 1], x) + if s[|s| - 1] == x then 1 else 0
  }

  // How many numbers below x leave remainder j.
  function Below(x: int, n: int, j: int): int
    requires n >= 1
  {
    (x + n - 1 - j) / n
  }

  lemma BelowSuccessor(x: int, n: int, j: int)
    requires n >= 1 && 0 <= j < n && x >= 0
    ensures Below(x + 1, n, j) == Below(x, n, j) + if x % n == j then 1 else 0
  {
    var y := x + n - 1 - j;
    ModSuccessor(y, n);
    var q, r := x / n, x % n;
    assert x == q * n + r;
    if r >= j {
      MulSum(q, 1, n);
      DivMod(y + 1, n, q + 1, r - j);
    } else {
      DivMod(y + 1, n, q, r + n - j);
    }
  }

  // Index j occurs in a rotation as often as its remainder occurs among the numbers rotated over.
  lemma {:induction false} CountRotation(xs: seq<int>, t: int, n: int, j: int)
    requires n >= 1 && 0 <= j < n && t >= 0
    requires forall k | 0 <= k < |xs| :: xs[k] == (t + k) % n
    ensures Count(xs, j) == Below(t + |xs|, n, j) - Below(t, n, j)
  {
    if xs != [] {
      var m := |xs| - 1;
      CountRotation(xs[..m], t, n, j);
      BelowSuccessor(t + m, n, j);
    }
  }

  lemma FloorOrCeiling(a: int, w: nat, n: int)
    requires n >= 1
    ensures w / n <= (a + w) / n - a / n <= (w + n - 1) / n
  {
    SumOfQuotients(a, w, n);
    Ceiling(w, n);
  }

  // Round-robin is fair: with an unchanged list of n accounts, any window of consecutive picks of a
  // key contains every index floor(w/n) or ceil(w/n) times, whatever other keys interleave.
  lemma FairOverEveryWindow(cursors: map<string, int>, picks: seq<Pick>, key: string, n: int,
                            from: nat, to: nat, j: int)
    requires n >= 1 && SameLength(picks, key, n) && 0 <= j < n
    requires from <= to <= |Indices(cursors, picks, key)|
    ensures (to - from) / n <= Count(Indices(cursors, picks, key)[from..to], j) <= (to - from + n - 1) / n
  {
    PicksRotate(cursors, picks, key, n);
    var xs := Indices(cursors, picks, key)[from..to];
    var t := Position(cursors, key, n) + from;
    CountRotation(xs, t, n, j);
    FloorOrCeiling(t + n - 1 - j, to - from, n);
  }

  // The accounts a sequence of tier indices stands for.
  function Chosen(tier: seq<Match>, xs: seq<int>): seq<string>
    requires forall k | 0 <= k < |xs| :: 0 <= xs[k] < |tier|
  {
    if xs == [] then [] else Chosen(tier, xs[..|xs| - 1]) + [tier[xs[|xs| - 1]].account]
  }

  lemma {:induction false} CountChosen(tier: seq<Match>, xs: seq<int>, j: nat)
    requires forall k | 0 <= k < |xs| :: 0 <= xs[k] < |tier|
    requires j < |tier| && forall a, b | 0 <= a < b < |tier| :: tier[a].account != tier[b].account
    ensures Count(Chosen(tier, xs), tier[j].account) == Count(xs, j)
  {
    if xs != [] {
      CountChosen(tier, xs[..|xs| - 1], j);
    }
  }

  // Among distinct accounts of the highest priority, every window of w picks of a group takes each
  // floor(w/n) or ceil(w/n) times.
  lemma TopAccountsShareEvenly(cursors: map<string, int>, picks: seq<Pick>, groupID: string, matched: seq<Match>,
                               from: nat, to: nat, j: nat)
    requires matched != [] && SameLength(picks, "group:" + groupID, |Tier(matched)|)
    requires forall a, b | 0 <= a < b < |Tier(matched)| :: Tier(matched)[a].account != Tier(matched)[b].account
    requires from <= to <= |Indices(cursors, picks, "group:" + groupID)| && j < |Tier(matched)|
    ensures var n := |Tier(matched)|; var xs := Indices(cursors, picks, "group:" + groupID)[from..to];
            && (forall k | 0 <= k < |xs| :: 0 <= xs[k] < n)
            && (to - from) / n <= Count(Chosen(Tier(matched), xs), Tier(matched)[j].account) <= (to - from + n - 1) / n
  {
    var n := |Tier(matched)|;
    var all := Indices(cursors, picks, "group:" + groupID);
    PicksRotate(cursors, picks, "group:" + groupID, n);
    CountChosen(Tier(matched), all[from..to], j);
    FairOverEveryWindow(cursors, picks, "group:" + groupID, n, from, to, j);
  }

  // Groups with different ids, and legacy dispatch, never share a cursor.
  lemma GroupKeysDisjoint(a: string, b: string)
    requires a != b
    ensures "group:" + a != "group:" + b && "group:" + a != "legacy"
  {
    assert ("group:" + a)[6..] == a && ("group:" + b)[6..] == b;
    assert ("group:" + a)[0] != "legacy"[0];
  }
}
