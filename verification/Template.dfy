/** Filling in an order body: twenty ReplaceAll passes over one string, which for values without an
    opening brace amount to one simultaneous substitution. */
module Template {
  import opened Options

  // strings.ReplaceAll: leftmost, non-overlapping occurrences.
  function ReplaceAll(s: string, from: string, to: string): string
    requires from != ""
    decreases |s|
  {
    if |s| < |from| then s
    else if s[..|from|] == from then to + ReplaceAll(s[|from|..], from, to)
    else [s[0]] + ReplaceAll(s[1..], from, to)
  }

  function Tag(name: string): string { "{{" + name + "}}" }

  predicate OpenFree(s: string) { '{' !in s }

  predicate BraceFree(s: string) { '{' !in s && '}' !in s }

  /* ---- Documents ---- */

  datatype Piece = Text(text: string) | Hole(name: string)

  function RenderPiece(p: Piece): string {
    match p case Text(t) => t case Hole(n) => Tag(n)
  }

  function Render(doc: seq<Piece>): string {
    if doc == [] then "" else RenderPiece(doc[0]) + Render(doc[1..])
  }

  predicate CleanPiece(p: Piece) {
    match p case Text(t) => OpenFree(t) case Hole(n) => BraceFree(n)
  }

  predicate Clean(doc: seq<Piece>) {
    forall i | 0 <= i < |doc| :: CleanPiece(doc[i])
  }

  function Fill(doc: seq<Piece>, key: string, value: string): seq<Piece> {
    seq(|doc|, i requires 0 <= i < |doc| => if doc[i] == Hole(key) then Text(value) else doc[i])
  }

  function Subst(doc: seq<Piece>, env: map<string, string>): seq<Piece> {
    seq(|doc|, i requires 0 <= i < |doc| =>
      if doc[i].Hole? && doc[i].name in env then Text(env[doc[i].name]) else doc[i])
  }

  /* ---- One pass ---- */

  lemma {:induction false} PassSkipsText(t: string, s: string, key: string, value: string)
    requires OpenFree(t)
    ensures ReplaceAll(t + s, Tag(key), value) == t + ReplaceAll(s, Tag(key), value)
  {
    if t == "" {
      assert t + s == s;
      assert t + ReplaceAll(s, Tag(key), value) == ReplaceAll(s, Tag(key), value);
    } else {
      var u := t + s;
      assert u[1..] == t[1..] + s;
      PassSkipsText(t[1..], s, key, value);
      if |u| >= |Tag(key)| {
        assert u[..|Tag(key)|][0] == t[0] && Tag(key)[0] == '{';
        assert [t[0]] + (t[1..] + ReplaceAll(s, Tag(key), value)) == t + ReplaceAll(s, Tag(key), value);
      }
    }
  }

  // Another placeholder never starts with this one.
  lemma TagsDiffer(name: string, s: string, key: string)
    requires BraceFree(name) && BraceFree(key) && name != key
    requires |Tag(key)| <= |Tag(name) + s|
    ensures (Tag(name) + s)[..|Tag(key)|] != Tag(key)
  {
    var u := Tag(name) + s;
    var n := |Tag(key)|;
    if |name| < |key| {
      assert u[..n][2 + |name|] == '}' && Tag(key)[2 + |name|] == key[|name|] && key[|name|] in key;
    } else if |name| > |key| {
      assert u[..n][2 + |key|] == name[|key|] && Tag(key)[2 + |key|] == '}' && name[|key|] in name;
    } else {
      assert u[..n] == Tag(name);
      assert Tag(name)[2..2 + |name|] == name && Tag(key)[2..2 + |key|] == key;
    }
  }

  // Where no placeholder starts, a pass moves on by one character.
  lemma PassSkipsChar(u: string, key: string, value: string)
    requires u != "" && (|u| < |Tag(key)| || u[..|Tag(key)|] != Tag(key))
    ensures ReplaceAll(u, Tag(key), value) == [u[0]] + ReplaceAll(u[1..], Tag(key), value)
  {
    if |u| < |Tag(key)| {
      ShortIsUnchanged(u[1..], key, value);
    }
  }

  lemma PassSkipsHole(name: string, s: string, key: string, value: string)
    requires BraceFree(name) && BraceFree(key) && name != key
    ensures ReplaceAll(Tag(name) + s, Tag(key), value) == Tag(name) + ReplaceAll(s, Tag(key), value)
  {
    hide ReplaceAll;
    var u := Tag(name) + s;
    var rest := name + "}}";
    var out := ReplaceAll(s, Tag(key), value);
    if |u| >= |Tag(key)| {
      TagsDiffer(name, s, key);
    }
    PassSkipsChar(u, key, value);
    assert u[1..] == "{" + (rest + s);
    assert ("{" + (rest + s))[1..] == rest + s && (rest + s)[0] != '{';
    if |u[1..]| >= |Tag(key)| {
      assert u[1..][..|Tag(key)|][1] == (rest + s)[0] && Tag(key)[1] == '{';
    }
    PassSkipsChar(u[1..], key, value);
    PassSkipsText(rest, s, key, value);
    assert ['{'] + (['{'] + (rest + out)) == Tag(name) + out;
  }

  lemma ShortIsUnchanged(s: string, key: string, value: string)
    requires |s| < |Tag(key)|
    ensures ReplaceAll(s, Tag(key), value) == s
  {
  }

  lemma PassFillsHole(s: string, key: string, value: string)
    ensures ReplaceAll(Tag(key) + s, Tag(key), value) == value + ReplaceAll(s, Tag(key), value)
  {
    var u := Tag(key) + s;
    assert u[..|Tag(key)|] == Tag(key) && u[|Tag(key)|..] == s;
  }

  // One pass over a rendered document fills exactly the holes of its name.
  lemma {:induction false} PassFills(doc: seq<Piece>, key: string, value: string)
    requires Clean(doc) && BraceFree(key)
    ensures ReplaceAll(Render(doc), Tag(key), value) == Render(Fill(doc, key, value))
  {
    if doc == [] {
      ShortIsUnchanged("", key, value);
    } else {
      var s := Render(doc[1..]);
      PassFills(doc[1..], key, value);
      assert Fill(doc, key, value)[1..] == Fill(doc[1..], key, value);
      match doc[0]
      case Text(t) => PassSkipsText(t, s, key, value);
      case Hole(n) =>
        if n == key {
          PassFillsHole(s, key, value);
        } else {
          PassSkipsHole(n, s, key, value);
        }
    }
  }

  /* ---- All passes ---- */

  type Binding = (string, string)

  function Passes(s: string, bindings: seq<Binding>): string
    decreases |bindings|
  {
    if bindings == [] then s
    else Passes(ReplaceAll(s, Tag(bindings[0].0), bindings[0].1), bindings[1..])
  }

  function Env(bindings: seq<Binding>): map<string, string> {
    if bindings == [] then map[] else Env(bindings[1..])[bindings[0].0 := bindings[0].1]
  }

  predicate SafeBindings(bindings: seq<Binding>) {
    forall i | 0 <= i < |bindings| :: BraceFree(bindings[i].0) && OpenFree(bindings[i].1)
  }

  lemma {:induction false} PassesSubstitute(doc: seq<Piece>, bindings: seq<Binding>)
    requires Clean(doc) && SafeBindings(bindings)
    ensures Passes(Render(doc), bindings) == Render(Subst(doc, Env(bindings)))
    decreases |bindings|
  {
    if bindings == [] {
      assert Subst(doc, map[]) == doc;
    } else {
      var (key, value) := bindings[0];
      var filled := Fill(doc, key, value);
      PassFills(doc, key, value);
      assert Clean(filled);
      PassesSubstitute(filled, bindings[1..]);
      assert Subst(filled, Env(bindings[1..])) == Subst(doc, Env(bindings));
    }
  }

  ghost predicate DistinctKeys(bindings: seq<Binding>) {
    forall i, j | 0 <= i < j < |bindings| :: bindings[i].0 != bindings[j].0
  }

  lemma {:induction false} EnvIsBindings(bindings: seq<Binding>)
    requires DistinctKeys(bindings)
    ensures forall k :: k in Env(bindings) <==> exists b :: b in bindings && b.0 == k
    ensures forall b | b in bindings :: b.0 in Env(bindings) && Env(bindings)[b.0] == b.1
  {
    if bindings != [] {
      EnvIsBindings(bindings[1..]);
      assert bindings == [bindings[0]] + bindings[1..];
      assert bindings[0] in bindings;
    }
  }

  ghost predicate Within(a: seq<Binding>, b: seq<Binding>) {
    forall i | 0 <= i < |a| :: a[i] in b
  }

  lemma EnvIncluded(a: seq<Binding>, b: seq<Binding>)
    requires DistinctKeys(a) && DistinctKeys(b) && Within(a, b)
    ensures forall k | k in Env(a) :: k in Env(b) && Env(b)[k] == Env(a)[k]
  {
    hide Env, DistinctKeys;
    EnvIsBindings(a);
    EnvIsBindings(b);
    forall k | k in Env(a)
      ensures k in Env(b) && Env(b)[k] == Env(a)[k]
    {
      var x :| x in a && x.0 == k;
      assert x in b;
    }
  }

  // The order of the passes only matters for equal keys.
  lemma EnvPermuted(a: seq<Binding>, b: seq<Binding>)
    requires DistinctKeys(a) && DistinctKeys(b) && Within(a, b) && Within(b, a)
    ensures Env(a) == Env(b)
  {
    EnvIncluded(a, b);
    EnvIncluded(b, a);
  }

  /* ---- Templates that open with a brace ---- */

  // A JSON template starts with one brace of its own, followed by literal text.
  predicate JsonDoc(doc: seq<Piece>) { doc != [] && doc[0].Text? && doc[0].text != "" }

  lemma PassKeepsBrace(s: string, key: string, value: string)
    requires s != "" && s[0] != '{'
    ensures ReplaceAll("{" + s, Tag(key), value) == "{" + ReplaceAll(s, Tag(key), value)
  {
    var u := "{" + s;
    assert u[1..] == s;
    if |u| >= |Tag(key)| {
      assert u[..|Tag(key)|][1] == s[0] && Tag(key)[1] == '{';
    } else {
      ShortIsUnchanged(s, key, value);
    }
  }

  lemma {:induction false} JsonPassesSubstitute(doc: seq<Piece>, bindings: seq<Binding>)
    requires Clean(doc) && JsonDoc(doc) && SafeBindings(bindings)
    ensures Passes("{" + Render(doc), bindings) == "{" + Render(Subst(doc, Env(bindings)))
    decreases |bindings|
  {
    if bindings == [] {
      assert Subst(doc, map[]) == doc;
    } else {
      var (key, value) := bindings[0];
      var filled := Fill(doc, key, value);
      assert CleanPiece(doc[0]) && Render(doc)[0] == doc[0].text[0];
      PassKeepsBrace(Render(doc), key, value);
      PassFills(doc, key, value);
      assert Clean(filled);
      assert filled[0] == doc[0];
      JsonPassesSubstitute(filled, bindings[1..]);
      assert Subst(filled, Env(bindings[1..])) == Subst(doc, Env(bindings));
    }
  }

  /* ---- The built-in bodies ---- */

  // The values a request substitutes, after JSON escaping.
  datatype Values = Values(
    amount: string, unit: string, action: string, symbol: string, hibtSymbol: string, v: string, tickerType: string,
    period: string, duration: string, timeUnit: string, binanceTime: string, accountID: string, bizPf: string,
    coinCode: string, pairID: string, poolID: string, returnRate: string, token: string)

  // The passes of PlaceOrder, in its order.
  function BodyBindings(v: Values): seq<Binding> {
    [("amount", v.amount), ("unit", v.unit), ("action", v.action), ("symbol", v.symbol), ("hibt_symbol", v.hibtSymbol),
     ("v", v.v), ("tickerType", v.tickerType), ("direction", v.action), ("period", v.period), ("duration", v.duration),
     ("timeUnit", v.timeUnit), ("binance_time", v.binanceTime), ("account_id", v.accountID), ("uid", v.accountID),
     ("biz_pf", v.bizPf), ("coin_code", v.coinCode), ("pair_id", v.pairID), ("pool_id", v.poolID),
     ("return_rate", v.returnRate), ("token", v.token)]
  }

  // The built-in body of an account type: an opening brace for JSON, then literal text and holes.
  function Lead(accountType: string): string {
    if accountType == "turboflow" || accountType == "binance" then "{" else ""
  }

  // Long literal text is cut into pieces; rendering joins them again.
  const HIBT_BODY := [
    Text("amount="), Hole("amount"), Text("&direction="), Hole("action"), Text("&symbol="),
    Hole("hibt_symbol"), Text("&timeUnit="), Hole("timeUnit"), Text("&langCode="), Text("zh_CN")]

  const TURBOFLOW_BODY := [
    Text("\"account_id\":\""), Hole("account_id"), Text("\",\"amount\":\""), Hole("amount"),
    Text("\",\"coin_code\":\""), Hole("coin_code"), Text("\",\"duration\":"), Hole("duration"),
    Text(",\"order_way\":"), Hole("action"), Text(",\"pair_id\":\""), Hole("pair_id"), Text("\",\"pool_id\":"),
    Hole("pool_id"), Text(",\"return_rate\":"), Hole("return_rate"), Text("}")]

  const BINANCE_BODY := [
    Text("\"direction\":\""), Hole("action"), Text("\",\"timeIncrements"), Text("\":\""), Hole("binance_time"),
    Text("\",\"orderAmount\":"), Hole("amount"), Text(",\"payoutRatio\":"), Text("0.85,\"walletType"),
    Text("\":\"UM\",\""), Text("symbolName\":\""), Hole("symbol"), Text("\"}")]

  function BodyDoc(accountType: string): seq<Piece> {
    if accountType == "hibt" then HIBT_BODY
    else if accountType == "turboflow" then TURBOFLOW_BODY
    else if accountType == "binance" then BINANCE_BODY
    else []
  }

  function DefaultBodyForType(accountType: string): string { Lead(accountType) + Render(BodyDoc(accountType)) }

  predicate SafeValues(v: Values) { forall i | 0 <= i < |BodyBindings(v)| :: OpenFree(BodyBindings(v)[i].1) }

  lemma BodyKeysDistinct(v: Values)
    ensures DistinctKeys(BodyBindings(v))
  {
  }

  lemma ShortNames()
    ensures BraceFree("amount") && BraceFree("unit") && BraceFree("action") && BraceFree("symbol") && BraceFree("v")
    ensures BraceFree("period") && BraceFree("uid") && BraceFree("biz_pf")
    ensures BraceFree("pair_id") && BraceFree("pool_id")
    ensures BraceFree("token")
  {
  }

  lemma MiddleNames()
    ensures BraceFree("tickerType") && BraceFree("direction") && BraceFree("duration") && BraceFree("timeUnit")
  {
  }

  lemma LongNames()
    ensures BraceFree("hibt_symbol") && BraceFree("binance_time") && BraceFree("account_id")
    ensures BraceFree("coin_code") && BraceFree("return_rate")
  {
  }

  lemma BodyKeysBraceFree(v: Values)
    ensures forall i | 0 <= i < |BodyBindings(v)| :: BraceFree(BodyBindings(v)[i].0)
  {
    hide BraceFree;
    ShortNames();
    MiddleNames();
    LongNames();
  }

  lemma HibtTexts()
    ensures OpenFree("amount=") && OpenFree("&direction=") && OpenFree("&symbol=")
    ensures OpenFree("&timeUnit=") && OpenFree("&langCode=") && OpenFree("zh_CN")
  {
  }

  lemma HibtClean()
    ensures Clean(HIBT_BODY)
  {
    hide BraceFree, OpenFree;
    ShortNames();
    MiddleNames();
    LongNames();
    HibtTexts();
  }

  lemma TurboflowTexts()
    ensures OpenFree("\"account_id\":\"") && OpenFree("\",\"amount\":\"") && OpenFree("\",\"coin_code\":\"")
    ensures OpenFree("\",\"duration\":") && OpenFree(",\"order_way\":") && OpenFree(",\"pair_id\":\"")
    ensures OpenFree("\",\"pool_id\":") && OpenFree(",\"return_rate\":") && OpenFree("}")
  {
  }

  lemma TurboflowClean()
    ensures Clean(TURBOFLOW_BODY) && JsonDoc(TURBOFLOW_BODY)
  {
    hide BraceFree, OpenFree;
    ShortNames();
    MiddleNames();
    LongNames();
    TurboflowTexts();
  }

  lemma BinanceTexts()
    ensures OpenFree("\"direction\":\"") && OpenFree("\",\"timeIncrements") && OpenFree("\":\"")
    ensures OpenFree("\",\"orderAmount\":") && OpenFree(",\"payoutRatio\":") && OpenFree("0.85,\"walletType")
    ensures OpenFree("\":\"UM\",\"") && OpenFree("symbolName\":\"") && OpenFree("\"}")
  {
  }

  lemma BinanceClean()
    ensures Clean(BINANCE_BODY) && JsonDoc(BINANCE_BODY)
  {
    hide BraceFree, OpenFree;
    ShortNames();
    MiddleNames();
    LongNames();
    BinanceTexts();
  }

  lemma BodyDocsClean(accountType: string)
    ensures Clean(BodyDoc(accountType))
    ensures Lead(accountType) == "{" ==> JsonDoc(BodyDoc(accountType))
    ensures Lead(accountType) == "{" || Lead(accountType) == ""
  {
    hide Clean;
    if accountType == "hibt" {
      HibtClean();
    } else if accountType == "turboflow" {
      TurboflowClean();
    } else if accountType == "binance" {
      BinanceClean();
    } else {
      EmptyClean();
    }
  }

  lemma EmptyClean()
    ensures Clean([])
  {
  }

  // For every built-in body and values without an opening brace, the twenty passes, in any order, are
  // one simultaneous substitution.
  lemma BodyIsOneSubstitution(accountType: string, v: Values, order: seq<Binding>)
    requires SafeValues(v) && DistinctKeys(order) && Within(order, BodyBindings(v)) && Within(BodyBindings(v), order)
    ensures Passes(DefaultBodyForType(accountType), order) ==
            Lead(accountType) + Render(Subst(BodyDoc(accountType), Env(BodyBindings(v))))
  {
    hide BodyBindings, BodyDoc, Lead, Env, Subst, Passes;
    var doc := BodyDoc(accountType);
    BodyKeysDistinct(v);
    BodyKeysBraceFree(v);
    BodyDocsClean(accountType);
    EnvPermuted(order, BodyBindings(v));
    assert SafeBindings(order) by {
      forall i | 0 <= i < |order|
        ensures BraceFree(order[i].0) && OpenFree(order[i].1)
      {
        assert order[i] in BodyBindings(v);
      }
    }
    if Lead(accountType) == "{" {
      JsonPassesSubstitute(doc, order);
    } else {
      PassesSubstitute(doc, order);
      assert "" + Render(doc) == Render(doc);
      assert "" + Render(Subst(doc, Env(order))) == Render(Subst(doc, Env(order)));
    }
  }

  predicate Binds(env: map<string, string>, key: string, value: string) { key in env && env[key] == value }

  lemma Bound(bindings: seq<Binding>, i: nat, key: string, value: string)
    requires DistinctKeys(bindings) && i < |bindings| && bindings[i] == (key, value)
    ensures Binds(Env(bindings), key, value)
  {
    EnvIsBindings(bindings);
    assert bindings[i] in bindings;
  }

  // The value of each hole of the built-in bodies.
  lemma FirstHoles(v: Values)
    ensures var e := Env(BodyBindings(v));
            && Binds(e, "amount", v.amount)
            && Binds(e, "action", v.action)
            && Binds(e, "symbol", v.symbol)
            && Binds(e, "hibt_symbol", v.hibtSymbol)
            && Binds(e, "duration", v.duration)
            && Binds(e, "timeUnit", v.timeUnit)
  {
    hide Env, DistinctKeys, Binds;
    BodyKeysDistinct(v);
    var b := BodyBindings(v);
    Bound(b, 0, "amount", v.amount);
    Bound(b, 2, "action", v.action);
    Bound(b, 3, "symbol", v.symbol);
    Bound(b, 4, "hibt_symbol", v.hibtSymbol);
    Bound(b, 9, "duration", v.duration);
    Bound(b, 10, "timeUnit", v.timeUnit);
  }

  lemma LastHoles(v: Values)
    ensures var e := Env(BodyBindings(v));
            && Binds(e, "binance_time", v.binanceTime)
            && Binds(e, "account_id", v.accountID)
            && Binds(e, "coin_code", v.coinCode)
            && Binds(e, "pair_id", v.pairID)
            && Binds(e, "pool_id", v.poolID)
            && Binds(e, "return_rate", v.returnRate)
            && Binds(e, "token", v.token)
  {
    hide Env, DistinctKeys, Binds;
    BodyKeysDistinct(v);
    var b := BodyBindings(v);
    Bound(b, 11, "binance_time", v.binanceTime);
    Bound(b, 12, "account_id", v.accountID);
    Bound(b, 15, "coin_code", v.coinCode);
    Bound(b, 16, "pair_id", v.pairID);
    Bound(b, 17, "pool_id", v.poolID);
    Bound(b, 18, "return_rate", v.returnRate);
    Bound(b, 19, "token", v.token);
  }

  // The names that only configured bodies use.
  lemma OtherHoles(v: Values)
    ensures var e := Env(BodyBindings(v));
            && Binds(e, "unit", v.unit)
            && Binds(e, "v", v.v)
            && Binds(e, "tickerType", v.tickerType)
            && Binds(e, "direction", v.action)
            && Binds(e, "period", v.period)
            && Binds(e, "uid", v.accountID)
            && Binds(e, "biz_pf", v.bizPf)
  {
    hide Env, DistinctKeys, Binds;
    BodyKeysDistinct(v);
    var b := BodyBindings(v);
    Bound(b, 1, "unit", v.unit);
    Bound(b, 5, "v", v.v);
    Bound(b, 6, "tickerType", v.tickerType);
    Bound(b, 7, "direction", v.action);
    Bound(b, 8, "period", v.period);
    Bound(b, 13, "uid", v.accountID);
    Bound(b, 14, "biz_pf", v.bizPf);
  }

  // Every hole of a built-in body is filled, so nothing of the template syntax is left over.
  lemma EveryHoleIsFilled(accountType: string, v: Values, i: nat)
    requires i < |BodyDoc(accountType)|
    ensures Subst(BodyDoc(accountType), Env(BodyBindings(v)))[i].Text?
  {
    hide Env, BodyBindings;
    FirstHoles(v);
    LastHoles(v);
  }

  function Join(parts: seq<string>): string {
    if parts == [] then "" else parts[0] + Join(parts[1..])
  }

  // A document without holes.
  ghost predicate Reads(doc: seq<Piece>, parts: seq<string>) {
    |doc| == |parts| && forall i | 0 <= i < |doc| :: doc[i] == Text(parts[i])
  }

  lemma {:induction false} RenderTexts(doc: seq<Piece>, parts: seq<string>)
    requires Reads(doc, parts)
    ensures Render(doc) == Join(parts)
  {
    if doc != [] {
      RenderTexts(doc[1..], parts[1..]);
    }
  }

  // The whole bodies, as they are sent for values without an opening brace.
  function FilledBody(accountType: string, v: Values): seq<string> {
    if accountType == "hibt" then
      ["amount=", v.amount, "&direction=", v.action, "&symbol=", v.hibtSymbol, "&timeUnit=", v.timeUnit,
       "&langCode=", "zh_CN"]
    else if accountType == "turboflow" then
      ["\"account_id\":\"", v.accountID, "\",\"amount\":\"", v.amount, "\",\"coin_code\":\"", v.coinCode,
       "\",\"duration\":", v.duration, ",\"order_way\":", v.action, ",\"pair_id\":\"", v.pairID, "\",\"pool_id\":",
       v.poolID, ",\"return_rate\":", v.returnRate, "}"]
    else if accountType == "binance" then
      ["\"direction\":\"", v.action, "\",\"timeIncrements", "\":\"", v.binanceTime, "\",\"orderAmount\":", v.amount,
       ",\"payoutRatio\":", "0.85,\"walletType", "\":\"UM\",\"", "symbolName\":\"", v.symbol, "\"}"]
    else []
  }

  lemma HibtFilled(v: Values)
    ensures Reads(Subst(HIBT_BODY, Env(BodyBindings(v))), FilledBody("hibt", v))
  {
    hide Env, BodyBindings;
    FirstHoles(v);
  }

  lemma TurboflowFilled(v: Values)
    ensures Reads(Subst(TURBOFLOW_BODY, Env(BodyBindings(v))), FilledBody("turboflow", v))
  {
    hide Env, BodyBindings;
    FirstHoles(v);
    LastHoles(v);
  }

  lemma BinanceFilled(v: Values)
    ensures Reads(Subst(BINANCE_BODY, Env(BodyBindings(v))), FilledBody("binance", v))
  {
    hide Env, BodyBindings;
    FirstHoles(v);
    LastHoles(v);
  }

  lemma FilledPieces(accountType: string, v: Values)
    ensures Reads(Subst(BodyDoc(accountType), Env(BodyBindings(v))), FilledBody(accountType, v))
  {
    hide Env, BodyBindings, Reads, Subst;
    HibtFilled(v);
    TurboflowFilled(v);
    BinanceFilled(v);
    NothingToFill(Env(BodyBindings(v)));
  }

  lemma NothingToFill(env: map<string, string>)
    ensures Reads(Subst([], env), [])
  {
  }

  lemma BodyAsSent(accountType: string, v: Values)
    requires SafeValues(v)
    ensures Passes(DefaultBodyForType(accountType), BodyBindings(v)) ==
            (if accountType == "turboflow" || accountType == "binance" then "{" else "") +
            Join(FilledBody(accountType, v))
  {
    hide Env, BodyBindings, BodyDoc, Passes, FilledBody, Subst, DefaultBodyForType, SafeValues, Reads;
    BodyKeysDistinct(v);
    FilledPieces(accountType, v);
    BodyIsOneSubstitution(accountType, v, BodyBindings(v));
    RenderTexts(Subst(BodyDoc(accountType), Env(BodyBindings(v))), FilledBody(accountType, v));
  }

  method SubstituteBody(template: string, v: Values) returns (body: string)
    ensures body == Passes(template, BodyBindings(v))
  {
    hide BodyBindings;
    body := template;
    var bindings := BodyBindings(v);
    for i := 0 to |bindings|
      invariant Passes(body, bindings[i..]) == Passes(template, bindings)
    {
      assert bindings[i..][0] == bindings[i] && bindings[i..][1..] == bindings[i + 1..];
      body := ReplaceAll(body, Tag(bindings[i].0), bindings[i].1);
    }
  }
}
