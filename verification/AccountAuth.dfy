/** The token fields of an account: Binance accounts keep a csrf token and a p20t token, which may come
    from a pasted cookie; all others keep what they were given. */
module AccountAuth {
  import opened Options
  import opened Text

  type Auth = map<string, string>

  const PREFIX := "p20t="

  function Field(auth: Auth, key: string): string { if key in auth then auth[key] else "" }

  // strings.Split at one character.
  function Split(s: string, sep: char): (parts: seq<string>)
    ensures |parts| >= 1
  {
    if s == "" then [""]
    else
      var rest := Split(s[1..], sep);
      if s[0] == sep then [""] + rest else [[s[0]] + rest[0]] + rest[1..]
  }

  predicate HasToken(part: string) { PREFIX <= TrimSpace(part) }

  // The first cookie part that names the token.
  function TokenIn(parts: seq<string>): string {
    if parts == [] then ""
    else if HasToken(parts[0]) then TrimSpace(parts[0])[|PREFIX|..]
    else TokenIn(parts[1..])
  }

  function CookieToken(auth: Auth): string { TokenIn(Split(Field(auth, "cookie"), ';')) }

  function Token(auth: Auth): string {
    var own := TrimSpace(Field(auth, "p20t"));
    if own == "" then CookieToken(auth) else own
  }

  function Entry(key: string, value: string): Auth { if value == "" then map[] else map[key := value] }

  function Normalized(kind: string, auth: Option<Auth>): Auth {
    var a := if auth.Some? then auth.value else map[];
    if kind == "binance" then Entry("csrftoken", TrimSpace(Field(a, "csrftoken"))) + Entry("p20t", Token(a)) else a
  }

  method NormalizeAuth(kind: string, auth: Option<Auth>) returns (out: Auth)
    ensures out == Normalized(kind, auth)
  {
    hide TrimSpace, Split;
    var a := if auth == None then map[] else auth.value;
    if kind != "binance" {
      return a;
    }
    out := map[];
    var csrf := TrimSpace(Field(a, "csrftoken"));
    if csrf != "" {
      out := out["csrftoken" := csrf];
    }
    var p20t := TrimSpace(Field(a, "p20t"));
    if p20t == "" {
      var cookie := Field(a, "cookie");
      EmptyCookie();
      if cookie != "" {
        var parts := Split(cookie, ';');
        for i := 0 to |parts|
          invariant p20t == "" && TokenIn(parts) == TokenIn(parts[i..])
        {
          assert parts[i..][1..] == parts[i + 1..];
          var part := TrimSpace(parts[i]);
          if PREFIX <= part {
            p20t := part[|PREFIX|..];
            break;
          }
        }
      }
    }
    if p20t != "" {
      out := out["p20t" := p20t];
    }
  }

  lemma EmptyCookie()
    ensures TokenIn(Split("", ';')) == ""
  {
    assert Split("", ';') == [""] && [""][1..] == [];
    assert TrimSpace("") == "";
  }

  // What a Binance account is left with: at most the two tokens, neither of them empty.
  lemma BinanceKeepsTwo(auth: Option<Auth>)
    ensures var out := Normalized("binance", auth);
            out.Keys <= {"csrftoken", "p20t"} && forall k | k in out :: out[k] != ""
  {
  }

  lemma {:induction false} BlankIsAllSpace(s: string)
    requires TrimSpace(s) == ""
    ensures forall i | 0 <= i < |s| :: IsSpace(s[i])
    decreases |s|
  {
    if s != "" {
      if IsSpace(s[0]) {
        BlankIsAllSpace(s[1..]);
      } else {
        BlankIsAllSpace(s[..|s| - 1]);
      }
    }
  }

  // A token from a cookie ends with a character that is no space, but may begin with spaces.
  lemma {:induction false} TokenEndsVisible(parts: seq<string>)
    ensures TokenIn(parts) != "" ==> TrimSpace(TokenIn(parts)) != ""
  {
    if parts != [] {
      if HasToken(parts[0]) {
        var part := TrimSpace(parts[0]);
        var token := part[|PREFIX|..];
        if token != "" {
          assert token[|token| - 1] == part[|part| - 1];
          if TrimSpace(token) == "" {
            BlankIsAllSpace(token);
            assert false;
          }
        }
      } else {
        TokenEndsVisible(parts[1..]);
      }
    }
  }

  // Whether normalising is final at once; a caller can look at the cookie.
  predicate Stable(kind: string, auth: Option<Auth>) {
    kind != "binance" || auth == None || TrimSpace(Field(auth.value, "p20t")) != "" || Trimmed(CookieToken(auth.value))
  }

  lemma FieldsOfNormalized(auth: Option<Auth>)
    ensures var out := Normalized("binance", auth); var a := if auth.Some? then auth.value else map[];
            && Field(out, "csrftoken") == TrimSpace(Field(a, "csrftoken")) && Field(out, "p20t") == Token(a)
            && Field(out, "cookie") == ""
  {
    hide TrimSpace, Token;
  }

  lemma NormalizedTwice(auth: Option<Auth>)
    ensures var out := Normalized("binance", auth); var a := if auth.Some? then auth.value else map[];
            && Token(out) == TrimSpace(Token(a))
            && Normalized("binance", Some(out)) ==
               Entry("csrftoken", TrimSpace(Field(a, "csrftoken"))) + Entry("p20t", TrimSpace(Token(a)))
  {
    hide TrimSpace, Trimmed, TokenIn, Split;
    var a := if auth.Some? then auth.value else map[];
    FieldsOfNormalized(auth);
    EmptyCookie();
    TokenEndsVisible(Split(Field(a, "cookie"), ';'));
  }

  // Normalising again changes nothing if and only if the token does not come out of the cookie with a
  // leading space; normalising twice is always final.
  lemma NormalizeAgainIff(kind: string, auth: Option<Auth>)
    ensures var once := Normalized(kind, auth);
            && (Normalized(kind, Some(once)) == once <==> Stable(kind, auth))
            && Stable(kind, Some(Normalized(kind, Some(once))))
  {
    hide TrimSpace, TokenIn, Split;
    if kind == "binance" {
      var a := if auth.Some? then auth.value else map[];
      var once := Normalized(kind, auth);
      EmptyCookie();
      NormalizedTwice(auth);
      FieldsOfNormalized(auth);
      FieldsOfNormalized(Some(once));
      assert TrimSpace("") == "";
      assert Normalized(kind, Some(once)) == once <==> TrimSpace(Token(a)) == Token(a);
    }
  }

  lemma TokenOfOnePart(part: string)
    requires Trimmed(part) && PREFIX <= part
    ensures TokenIn([part]) == part[|PREFIX|..]
  {
    hide Trimmed;
  }

  lemma PrefixHasNoSeparator(value: string)
    requires ';' !in value
    ensures ';' !in PREFIX + value && (PREFIX + value)[0] == 'p'
    ensures PREFIX <= PREFIX + value && (PREFIX + value)[|PREFIX|..] == value
  {
    assert ';' !in PREFIX;
  }

  lemma TokenAfterPrefix(value: string)
    requires value != "" && !IsSpace(value[|value| - 1]) && ';' !in value
    ensures TokenIn(Split(PREFIX + value, ';')) == value
  {
    hide IsSpace, PREFIX, TokenIn, Split;
    var cookie := PREFIX + value;
    PrefixHasNoSeparator(value);
    PrefixStartsVisible();
    NoSeparator(cookie, ';');
    assert cookie[|cookie| - 1] == value[|value| - 1];
    TokenOfOnePart(cookie);
  }

  lemma PrefixStartsVisible()
    ensures !IsSpace('p')
  {
  }

  // So pasting a cookie with a space behind the equals sign takes two rounds, whatever the token.
  lemma SpacedToken(value: string) returns (auth: Auth)
    requires value != "" && !IsSpace(value[|value| - 1]) && ';' !in value
    ensures auth == map["cookie" := PREFIX + " " + value]
    ensures Normalized("binance", Some(Normalized("binance", Some(auth)))) != Normalized("binance", Some(auth))
  {
    hide TrimSpace, TokenIn, Split, Normalized;
    auth := map["cookie" := PREFIX + " " + value];
    assert PREFIX + (" " + value) == PREFIX + " " + value;
    TokenAfterPrefix(" " + value);
    assert !Trimmed(" " + value) by { assert (" " + value)[0] == ' '; }
    assert TrimSpace("") == "" by { TrimOfEmpty(); }
    NormalizeAgainIff("binance", Some(auth));
  }

  lemma TrimOfEmpty()
    ensures TrimSpace("") == ""
  {
  }

  lemma {:induction false} NoSeparator(s: string, sep: char)
    requires sep !in s
    ensures Split(s, sep) == [s]
  {
    if s != "" {
      NoSeparator(s[1..], sep);
      assert [s[0]] + s[1..] == s;
    }
  }

  /* ---- Pasted cookies ---- */

  // The cookie text that a browser shows: its parts with a semicolon between them.
  function Cookie(parts: seq<string>): string
    requires parts != []
  {
    if |parts| == 1 then parts[0] else parts[0] + ";" + Cookie(parts[1..])
  }

  lemma {:induction false} SplitFirst(part: string, rest: string)
    requires ';' !in part
    ensures Split(part + ";" + rest, ';') == [part] + Split(rest, ';')
  {
    var s := part + ";" + rest;
    if part == "" {
      assert s[0] == ';' && s[1..] == rest;
    } else {
      SplitFirst(part[1..], rest);
      assert s[0] == part[0] && s[1..] == part[1..] + ";" + rest;
      assert [part[0]] + part[1..] == part;
    }
  }

  lemma {:induction false} SplitOfCookie(parts: seq<string>)
    requires parts != [] && forall i | 0 <= i < |parts| :: ';' !in parts[i]
    ensures Split(Cookie(parts), ';') == parts
  {
    hide Split;
    if |parts| == 1 {
      NoSeparator(parts[0], ';');
    } else {
      SplitOfCookie(parts[1..]);
      SplitFirst(parts[0], Cookie(parts[1..]));
    }
  }

  lemma {:induction false} FirstTokenWins(parts: seq<string>, k: nat, value: string)
    requires k < |parts| && TrimSpace(parts[k]) == "p20t=" + value
    requires forall i | 0 <= i < k :: !("p20t=" <= TrimSpace(parts[i]))
    ensures TokenIn(parts) == value
  {
    hide TrimSpace;
    if k > 0 {
      FirstTokenWins(parts[1..], k - 1, value);
    } else {
      assert ("p20t=" + value)[5..] == value;
    }
  }

  // A Binance account without a token of its own takes the first one its cookie names, whatever
  // stands around it; a token of its own wins over the cookie.
  lemma TokenOfCookie(parts: seq<string>, k: nat, value: string, auth: Auth)
    requires k < |parts| && forall i | 0 <= i < |parts| :: ';' !in parts[i]
    requires TrimSpace(parts[k]) == "p20t=" + value
    requires forall i | 0 <= i < k :: !("p20t=" <= TrimSpace(parts[i]))
    requires Field(auth, "cookie") == Cookie(parts)
    ensures var own := TrimSpace(Field(auth, "p20t"));
            Field(Normalized("binance", Some(auth)), "p20t") == if own != "" then own else value
  {
    hide TrimSpace, Split, TokenIn;
    SplitOfCookie(parts);
    FirstTokenWins(parts, k, value);
    FieldsOfNormalized(Some(auth));
  }

  lemma OthersKeepAll(kind: string, auth: Auth)
    requires kind != "binance"
    ensures Normalized(kind, Some(auth)) == auth && Normalized(kind, None) == map[]
  {
  }
}
