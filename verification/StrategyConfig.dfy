/** Preparing the strategies: bindings that would size an order unsafely are refused, and every
    account group gets an id that no other group of any strategy has. */
module StrategyConfig {
  import opened Text
  import RoundRobin

  datatype Binding = Binding(accountId: string, amount: string, percent: real, minAmount: real, maxAmount: real)
  datatype Group = Group(id: string, dispatch: string, accounts: seq<Binding>)
  datatype Strategy = Strategy(id: string, name: string, groups: seq<Group>)

  datatype Refusal = Accepted | Unnamed | DuplicateStrategy | DuplicateGroup | BadBinding

  predicate KnownDispatch(mode: string) {
    mode == "random" || mode == "weighted" || mode == "round-robin" || mode == "all"
  }

  // Never "all" unless the operator wrote it: an unknown mode must not reach every account.
  function NormalizeDispatch(mode: string): (v: string)
    ensures KnownDispatch(v)
    ensures KnownDispatch(mode) ==> v == mode
    ensures v == "all" <==> ToLower(TrimSpace(mode)) == "all"
    ensures !KnownDispatch(ToLower(TrimSpace(mode))) ==> v == "round-robin"
  {
    var v := ToLower(TrimSpace(mode));
    KnownIsLower(mode);
    if KnownDispatch(v) then v else "round-robin"
  }

  lemma KnownIsLower(mode: string)
    ensures KnownDispatch(mode) ==> Trimmed(mode) && ToLower(mode) == mode
  {
  }

  /* ---- What preparing makes of each part ---- */

  function PreparedBinding(b: Binding): Binding {
    b.(accountId := TrimSpace(b.accountId), amount := TrimSpace(b.amount))
  }

  // What a binding may ask for: a share of at most the whole balance, and limits that do not cross.
  predicate SafeBinding(b: Binding) {
    && TrimSpace(b.accountId) != "" && 0.0 <= b.percent <= 100.0 && 0.0 <= b.minAmount && 0.0 <= b.maxAmount
    && (b.minAmount == 0.0 || b.maxAmount == 0.0 || b.minAmount <= b.maxAmount)
  }

  function PreparedBindings(bs: seq<Binding>): seq<Binding> {
    seq(|bs|, i requires 0 <= i < |bs| => PreparedBinding(bs[i]))
  }

  predicate SafeBindings(bs: seq<Binding>) {
    forall i | 0 <= i < |bs| :: SafeBinding(bs[i])
  }

  function Key(s: Strategy): string {
    if TrimSpace(s.id) != "" then TrimSpace(s.id) else TrimSpace(s.name)
  }

  function GroupId(key: string, id: string, index: nat): string {
    if TrimSpace(id) != "" then TrimSpace(id) else key + "-g" + Decimal(index + 1)
  }

  function PreparedGroup(key: string, g: Group, index: nat): Group {
    Group(GroupId(key, g.id, index), NormalizeDispatch(g.dispatch), PreparedBindings(g.accounts))
  }

  function PreparedGroups(key: string, gs: seq<Group>): seq<Group> {
    seq(|gs|, i requires 0 <= i < |gs| => PreparedGroup(key, gs[i], i))
  }

  function PreparedStrategy(s: Strategy): Strategy {
    var name := TrimSpace(s.name);
    Strategy(TrimSpace(s.id), if name == "" then TrimSpace(s.id) else name, PreparedGroups(Key(s), s.groups))
  }

  function GroupIds(key: string, gs: seq<Group>): seq<string> {
    seq(|gs|, i requires 0 <= i < |gs| => GroupId(key, gs[i].id, i))
  }

  // The ids of all groups of all strategies, in order.
  function AllGroupIds(ss: seq<Strategy>): seq<string> {
    if ss == [] then []
    else AllGroupIds(ss[..|ss| - 1]) + GroupIds(Key(ss[|ss| - 1]), ss[|ss| - 1].groups)
  }

  ghost predicate Distinct(s: seq<string>) {
    forall i, j | 0 <= i < j < |s| :: s[i] != s[j]
  }

  function Keys(ss: seq<Strategy>): seq<string> {
    seq(|ss|, i requires 0 <= i < |ss| => Key(ss[i]))
  }

  predicate SafeGroups(gs: seq<Group>) {
    forall i | 0 <= i < |gs| :: SafeBindings(gs[i].accounts)
  }

  // Everything the configuration has to meet.
  ghost predicate Acceptable(ss: seq<Strategy>) {
    && "" !in Keys(ss) && Distinct(Keys(ss)) && Distinct(AllGroupIds(ss))
    && forall i | 0 <= i < |ss| :: SafeGroups(ss[i].groups)
  }

  /* ---- The operations ---- */

  method PrepareAccounts(accounts: seq<Binding>) returns (out: seq<Binding>, ok: bool)
    ensures ok <==> SafeBindings(accounts)
    ensures ok <==> forall b | b in accounts ::
      && TrimSpace(b.accountId) != "" && 0.0 <= b.percent && b.percent <= 100.0
      && 0.0 <= b.minAmount && 0.0 <= b.maxAmount && !(0.0 < b.maxAmount < b.minAmount)
    ensures ok ==> out == PreparedBindings(accounts)
    ensures ok ==> forall i | 0 <= i < |accounts| ::
      var b := accounts[i];
      out[i] == Binding(TrimSpace(b.accountId), TrimSpace(b.amount), b.percent, b.minAmount, b.maxAmount)
  {
    hide TrimSpace;
    out := accounts;
    for i := 0 to |accounts|
      invariant |out| == |accounts| && out[i..] == accounts[i..]
      invariant forall k | 0 <= k < i :: SafeBinding(accounts[k]) && out[k] == PreparedBinding(accounts[k])
    {
      assert out[i] == out[i..][0] == accounts[i];
      var a := out[i].(accountId := TrimSpace(out[i].accountId), amount := TrimSpace(out[i].amount));
      out := out[i := a];
      if a.accountId == "" || a.percent < 0.0 || a.percent > 100.0 {
        return out, false;
      }
      if a.minAmount < 0.0 || a.maxAmount < 0.0 {
        return out, false;
      }
      if a.minAmount > 0.0 && a.maxAmount > 0.0 && a.minAmount > a.maxAmount {
        return out, false;
      }
    }
    ok := true;
  }

  function Elements(s: seq<string>): set<string> { set x | x in s }

  lemma ElementsSnoc(s: seq<string>, x: string)
    ensures Elements(s + [x]) == Elements(s) + {x}
    ensures Distinct(s + [x]) <==> Distinct(s) && x !in Elements(s)
  {
    var all := s + [x];
    assert all[|s|] == x;
    forall i | 0 <= i < |s| ensures all[i] == s[i] {
    }
    if x in s {
      var i :| 0 <= i < |s| && s[i] == x;
      assert all[i] == all[|s|];
    }
  }

  lemma DistinctPrefix(s: seq<string>, t: seq<string>)
    requires Distinct(s + t)
    ensures Distinct(s)
  {
    forall i, j | 0 <= i < j < |s| ensures s[i] != s[j] {
      assert (s + t)[i] == s[i] && (s + t)[j] == s[j];
    }
  }

  // The groups of one strategy, given the ids of the groups before them.
  method PrepareGroups(key: string, groups: seq<Group>, seen: set<string>, ghost before: seq<string>)
    returns (out: seq<Group>, seenAfter: set<string>, refusal: Refusal)
    requires seen == Elements(before) && Distinct(before)
    ensures refusal in {Accepted, DuplicateGroup, BadBinding}
    ensures refusal == Accepted ==> Distinct(before + GroupIds(key, groups)) && SafeGroups(groups)
    ensures refusal == Accepted ==> out == PreparedGroups(key, groups)
    ensures refusal == Accepted ==> seenAfter == Elements(before + GroupIds(key, groups))
    ensures refusal == DuplicateGroup ==> !Distinct(before + GroupIds(key, groups))
    ensures refusal == BadBinding ==> !SafeGroups(groups)
  {
    hide TrimSpace, NormalizeDispatch, Decimal, Elements, Distinct, SafeBindings, PreparedBindings;
    out, seenAfter := groups, seen;
    ghost var ids := GroupIds(key, groups);
    assert before + ids[..0] == before;
    for i := 0 to |groups|
      invariant |out| == |groups| && out[i..] == groups[i..]
      invariant forall k | 0 <= k < i :: SafeBindings(groups[k].accounts)
      invariant forall k | 0 <= k < i :: out[k] == PreparedGroup(key, groups[k], k)
      invariant Distinct(before + ids[..i]) && seenAfter == Elements(before + ids[..i])
    {
      assert out[i] == out[i..][0] == groups[i];
      var g := out[i].(dispatch := NormalizeDispatch(out[i].dispatch), id := TrimSpace(out[i].id));
      if g.id == "" {
        g := g.(id := key + "-g" + Decimal(i + 1));
      }
      assert g.id == ids[i];
      IdsSnoc(before, ids, i);
      if g.id in seenAfter {
        return out, seenAfter, DuplicateGroup;
      }
      seenAfter := seenAfter + {g.id};
      var accounts, ok := PrepareAccounts(g.accounts);
      if !ok {
        return out, seenAfter, BadBinding;
      }
      out := out[i := g.(accounts := accounts)];
    }
    assert ids[..|groups|] == ids;
    refusal := Accepted;
  }

  lemma IdsSnoc(before: seq<string>, ids: seq<string>, i: nat)
    requires i < |ids| && Distinct(before + ids[..i])
    ensures Elements(before + ids[..i + 1]) == Elements(before + ids[..i]) + {ids[i]}
    ensures if ids[i] in Elements(before + ids[..i]) then !Distinct(before + ids) else Distinct(before + ids[..i + 1])
  {
    hide Elements, Distinct;
    assert before + ids[..i + 1] == before + ids[..i] + [ids[i]];
    ElementsSnoc(before + ids[..i], ids[i]);
    assert before + ids == before + ids[..i + 1] + ids[i + 1..];
    if Distinct(before + ids) {
      DistinctPrefix(before + ids[..i + 1], ids[i + 1..]);
    }
  }

  lemma KeysSnoc(ss: seq<Strategy>, s: Strategy)
    ensures Keys(ss + [s]) == Keys(ss) + [Key(s)]
    ensures AllGroupIds(ss + [s]) == AllGroupIds(ss) + GroupIds(Key(s), s.groups)
  {
    hide Key, GroupIds;
    assert (ss + [s])[..|ss|] == ss;
  }

  lemma {:induction false} PrefixDistinct(ss: seq<Strategy>, n: nat)
    requires n <= |ss|
    ensures Distinct(Keys(ss)) ==> Distinct(Keys(ss[..n]))
    ensures Distinct(AllGroupIds(ss)) ==> Distinct(AllGroupIds(ss[..n]))
    decreases |ss| - n
  {
    hide Key, GroupIds, AllGroupIds, Keys, Distinct;
    if n < |ss| {
      PrefixDistinct(ss, n + 1);
      assert ss[..n + 1] == ss[..n] + [ss[n]];
      KeysSnoc(ss[..n], ss[n]);
      if Distinct(Keys(ss)) {
        DistinctPrefix(Keys(ss[..n]), [Key(ss[n])]);
      }
      if Distinct(AllGroupIds(ss)) {
        DistinctPrefix(AllGroupIds(ss[..n]), GroupIds(Key(ss[n]), ss[n].groups));
      }
    } else {
      assert ss[..n] == ss;
    }
  }

  // One strategy's key: its id, or its name when it has none.
  method PrepareNames(s: Strategy) returns (out: Strategy, key: string)
    ensures out.id == TrimSpace(s.id) && out.groups == s.groups && key == Key(s)
    ensures out.name == (if TrimSpace(s.name) == "" then TrimSpace(s.id) else TrimSpace(s.name))
  {
    out := s.(id := TrimSpace(s.id), name := TrimSpace(s.name));
    if out.name == "" {
      out := out.(name := out.id);
    }
    key := out.id;
    if key == "" {
      key := out.name;
    }
  }

  method PrepareStrategies(strategies: array<Strategy>) returns (refusal: Refusal)
    modifies strategies
    ensures refusal == Accepted <==> Acceptable(old(strategies[..]))
    ensures refusal == Accepted ==> forall i | 0 <= i < strategies.Length ::
      strategies[i] == PreparedStrategy(old(strategies[..])[i])
    ensures refusal == Unnamed ==> "" in Keys(old(strategies[..]))
    ensures refusal == DuplicateStrategy ==> !Distinct(Keys(old(strategies[..])))
    ensures refusal == DuplicateGroup ==> !Distinct(AllGroupIds(old(strategies[..])))
    ensures refusal == BadBinding ==>
      exists i :: 0 <= i < strategies.Length && !SafeGroups(old(strategies[..])[i].groups)
  {
    hide TrimSpace, Key, Elements, Distinct, AllGroupIds, GroupIds, SafeGroups, PreparedGroups;
    ghost var was := strategies[..];
    var seenStrategy: set<string>, seenGroup: set<string> := {}, {};
    NothingSeen(was);
    for i := 0 to strategies.Length
      invariant strategies[i..] == was[i..]
      invariant forall k | 0 <= k < i :: strategies[k] == PreparedStrategy(was[k])
      invariant seenStrategy == Elements(Keys(was[..i])) && seenGroup == Elements(AllGroupIds(was[..i]))
      invariant "" !in Keys(was[..i]) && Distinct(Keys(was[..i])) && Distinct(AllGroupIds(was[..i]))
      invariant forall k | 0 <= k < i :: SafeGroups(was[k].groups)
    {
      assert strategies[i] == strategies[i..][0] == was[i];
      var st, key := PrepareNames(strategies[i]);
      assert was[..i + 1] == was[..i] + [was[i]];
      KeysSnoc(was[..i], was[i]);
      ElementsSnoc(Keys(was[..i]), key);
      PrefixDistinct(was, i + 1);
      if key == "" {
        assert Keys(was)[i] == "";
        return Unnamed;
      }
      if key in seenStrategy {
        return DuplicateStrategy;
      }
      seenStrategy := seenStrategy + {key};
      var groups;
      groups, seenGroup, refusal := PrepareGroups(key, st.groups, seenGroup, AllGroupIds(was[..i]));
      if refusal != Accepted {
        return;
      }
      strategies[i] := st.(groups := groups);
    }
    assert was[..strategies.Length] == was;
    refusal := Accepted;
  }

  lemma NothingSeen(was: seq<Strategy>)
    ensures Keys(was[..0]) == [] && AllGroupIds(was[..0]) == []
    ensures Elements([]) == {} && Distinct([])
  {
  }

  /* ---- What it gives the rest of the system ---- */

  // Preparing what was prepared changes nothing and is accepted again: load, update and save agree.
  lemma PreparedAgain(s: Strategy)
    requires Key(s) != ""
    ensures PreparedStrategy(PreparedStrategy(s)) == PreparedStrategy(s)
    ensures Key(PreparedStrategy(s)) == Key(s)
    ensures GroupIds(Key(s), PreparedStrategy(s).groups) == GroupIds(Key(s), s.groups)
  {
    hide TrimSpace, PreparedBindings, NormalizeDispatch;
    forall i | 0 <= i < |s.groups|
      ensures PreparedGroup(Key(s), PreparedGroup(Key(s), s.groups[i], i), i) == PreparedGroup(Key(s), s.groups[i], i)
    {
      GroupAgain(Key(s), s.groups[i], i);
    }
  }

  lemma GroupIdsOfPrepared(s: Strategy)
    requires Key(s) != ""
    ensures GroupIds(Key(PreparedStrategy(s)), PreparedStrategy(s).groups) == GroupIds(Key(s), s.groups)
  {
    hide PreparedStrategy, GroupIds;
    PreparedAgain(s);
  }

  lemma GeneratedIdIsTrimmed(key: string, n: nat)
    requires key != "" && Trimmed(key)
    ensures Trimmed(key + "-g" + Decimal(n))
  {
    hide Decimal;
    var d := Decimal(n);
    var id := key + "-g" + d;
    assert id[|id| - 1] == d[|d| - 1] && d[|d| - 1] in d;
    assert id[0] == key[0];
  }

  lemma GroupAgain(key: string, g: Group, i: nat)
    requires key != "" && Trimmed(key)
    ensures PreparedGroup(key, PreparedGroup(key, g, i), i) == PreparedGroup(key, g, i)
  {
    hide Decimal, Trimmed, KnownDispatch;
    GeneratedIdIsTrimmed(key, i + 1);
    var once := PreparedGroup(key, g, i);
    assert GroupId(key, once.id, i) == once.id by {
      hide NormalizeDispatch, PreparedBindings;
    }
    assert PreparedBindings(PreparedBindings(g.accounts)) == PreparedBindings(g.accounts) by {
      hide NormalizeDispatch, GroupId;
    }
  }

  function PreparedAll(ss: seq<Strategy>): seq<Strategy> {
    seq(|ss|, i requires 0 <= i < |ss| => PreparedStrategy(ss[i]))
  }

  lemma {:induction false} PreparedKeepsIds(ss: seq<Strategy>)
    requires "" !in Keys(ss)
    ensures Keys(PreparedAll(ss)) == Keys(ss) && AllGroupIds(PreparedAll(ss)) == AllGroupIds(ss)
  {
    hide PreparedStrategy, Key, GroupIds;
    if ss != [] {
      var n := |ss| - 1;
      assert forall i | 0 <= i < n :: Keys(ss[..n])[i] == Keys(ss)[i];
      PreparedKeepsIds(ss[..n]);
      assert PreparedAll(ss)[..n] == PreparedAll(ss[..n]);
      assert ss == ss[..n] + [ss[n]] && PreparedAll(ss) == PreparedAll(ss[..n]) + [PreparedStrategy(ss[n])];
      assert Keys(ss)[n] == Key(ss[n]) != "";
      KeysSnoc(ss[..n], ss[n]);
      KeysSnoc(PreparedAll(ss[..n]), PreparedStrategy(ss[n]));
      PreparedAgain(ss[n]);
      GroupIdsOfPrepared(ss[n]);
    }
  }

  lemma PreparingAgainChangesNothing(ss: seq<Strategy>)
    requires Acceptable(ss)
    ensures Acceptable(PreparedAll(ss)) && PreparedAll(PreparedAll(ss)) == PreparedAll(ss)
  {
    hide PreparedStrategy, Key, GroupIds, AllGroupIds, Distinct, SafeGroups;
    PreparedKeepsIds(ss);
    forall i | 0 <= i < |ss|
      ensures PreparedStrategy(PreparedStrategy(ss[i])) == PreparedStrategy(ss[i])
      ensures SafeGroups(PreparedStrategy(ss[i]).groups)
    {
      assert Keys(ss)[i] == Key(ss[i]);
      PreparedAgain(ss[i]);
      PreparedStaysSafe(ss[i]);
    }
  }

  lemma PreparedStaysSafe(s: Strategy)
    requires SafeGroups(s.groups)
    ensures SafeGroups(PreparedStrategy(s).groups)
  {
    hide TrimSpace, NormalizeDispatch, GroupId, Key;
    forall i, k | 0 <= i < |s.groups| && 0 <= k < |s.groups[i].accounts|
      ensures SafeBinding(PreparedBinding(s.groups[i].accounts[k]))
    {
      assert SafeBinding(s.groups[i].accounts[k]);
    }
  }

  // Where a group's id stands among all ids.
  lemma {:induction false} IdAt(ss: seq<Strategy>, n: nat, g: nat)
    requires n < |ss| && g < |ss[n].groups|
    ensures |AllGroupIds(ss[..n])| + |ss[n].groups| <= |AllGroupIds(ss)|
    ensures AllGroupIds(ss)[|AllGroupIds(ss[..n])| + g] == GroupId(Key(ss[n]), ss[n].groups[g].id, g)
  {
    hide Key, GroupId;
    var m := |ss| - 1;
    if n < m {
      IdAt(ss[..m], n, g);
      assert ss[..m][..n] == ss[..n];
    }
  }

  lemma {:induction false} IdsGrow(ss: seq<Strategy>, m: nat, n: nat)
    requires m < n <= |ss|
    ensures |AllGroupIds(ss[..m])| + |ss[m].groups| <= |AllGroupIds(ss[..n])|
  {
    hide Key, GroupId;
    assert ss[..n][..n - 1] == ss[..n - 1];
    if m < n - 1 {
      IdsGrow(ss, m, n - 1);
    }
  }

  // In an accepted configuration no two groups, of whatever strategies, share a round-robin cursor.
  lemma PreparedGroupsHaveOwnCursors(ss: seq<Strategy>, m: nat, g: nat, n: nat, h: nat)
    requires Acceptable(ss) && m <= n < |ss| && g < |ss[m].groups| && h < |ss[n].groups| && (m, g) != (n, h)
    ensures "group:" + PreparedAll(ss)[m].groups[g].id != "group:" + PreparedAll(ss)[n].groups[h].id
  {
    hide Key, GroupId, AllGroupIds, TrimSpace;
    IdAt(ss, m, g);
    IdAt(ss, n, h);
    if m < n {
      IdsGrow(ss, m, n);
    }
    RoundRobin.GroupKeysDisjoint(PreparedAll(ss)[m].groups[g].id, PreparedAll(ss)[n].groups[h].id);
  }

  // What groups without an id are called, and that they never clash with one another.
  lemma UnnamedGroups(s: Strategy, g: nat, h: nat)
    requires g < |s.groups| && h < |s.groups| && TrimSpace(s.groups[g].id) == "" && TrimSpace(s.groups[h].id) == ""
    ensures PreparedStrategy(s).groups[g].id == Key(s) + "-g" + Decimal(g + 1)
    ensures PreparedStrategy(s).groups[g].id == PreparedStrategy(s).groups[h].id ==> g == h
  {
    hide TrimSpace, Decimal, NormalizeDispatch;
    var prefix := Key(s) + "-g";
    var m, n := prefix + Decimal(g + 1), prefix + Decimal(h + 1);
    assert m[|prefix|..] == Decimal(g + 1) && n[|prefix|..] == Decimal(h + 1);
    ReadOfDecimal(g + 1);
    ReadOfDecimal(h + 1);
  }

  // A strategy is known by its id, or by its name if it has none; afterwards it has a name.
  lemma KeyOfPrepared(s: Strategy)
    requires Key(s) != ""
    ensures var p := PreparedStrategy(s);
            && p.name != "" && (p.id == "" ==> p.name == Key(s)) && (p.id != "" ==> p.id == Key(s))
            && (TrimSpace(s.id) != "" ==> Key(s) == TrimSpace(s.id) && p.id == Key(s))
            && (TrimSpace(s.id) == "" ==> Key(s) == TrimSpace(s.name))
    ensures var gs := PreparedStrategy(s).groups;
            |gs| == |s.groups| && forall i | 0 <= i < |gs| ::
              && KnownDispatch(gs[i].dispatch) && |gs[i].accounts| == |s.groups[i].accounts|
              && (TrimSpace(s.groups[i].id) != "" ==> gs[i].id == TrimSpace(s.groups[i].id))
  {
    hide TrimSpace, NormalizeDispatch, Decimal, KnownDispatch;
  }
}
