/** The string helpers the components share: Go's TrimSpace, ToLower, ToUpper (letters A to Z),
    EqualFold, Contains and the decimal rendering of a number. */
module Text {

  predicate IsSpace(c: char) {
    var n := c as int;
    9 <= n <= 13 || n == 32 || n == 0x85 || n == 0xA0 || n == 0x1680 || 0x2000 <= n <= 0x200A ||
    n == 0x2028 || n == 0x2029 || n == 0x202F || n == 0x205F || n == 0x3000
  }

  predicate Trimmed(s: string) {
    s == "" || (!IsSpace(s[0]) && !IsSpace(s[|s| - 1]))
  }

  function TrimSpace(s: string): (t: string)
    ensures Trimmed(t)
    ensures Trimmed(s) ==> t == s
    ensures |t| <= |s| && forall c | c in t :: c in s
    decreases |s|
  {
    if s == "" then ""
    else if IsSpace(s[0]) then TrimSpace(s[1..])
    else if IsSpace(s[|s| - 1]) then TrimSpace(s[..|s| - 1])
    else s
  }

  function LowerChar(c: char): char {
    if 'A' <= c <= 'Z' then (c as int + 32) as char else c
  }

  function UpperChar(c: char): char {
    if 'a' <= c <= 'z' then (c as int - 32) as char else c
  }

  function ToLower(s: string): string {
    seq(|s|, i requires 0 <= i < |s| => LowerChar(s[i]))
  }

  function ToUpper(s: string): string {
    seq(|s|, i requires 0 <= i < |s| => UpperChar(s[i]))
  }

  predicate EqualFold(s: string, t: string) { ToLower(s) == ToLower(t) }

  predicate StartsAt(s: string, i: nat, sub: string) {
    i + |sub| <= |s| && s[i..i + |sub|] == sub
  }

  predicate Contains(s: string, sub: string) {
    exists i | 0 <= i <= |s| :: StartsAt(s, i, sub)
  }

  predicate IsDigit(c: char) { '0' <= c <= '9' }

  function DigitChar(d: nat): char
    requires d < 10
  {
    ('0' as int + d) as char
  }

  function Decimal(n: nat): (s: string)
    ensures s != "" && forall c | c in s :: IsDigit(c)
  {
    if n < 10 then [DigitChar(n)] else Decimal(n / 10) + [DigitChar(n % 10)]
  }

  // Reads a decimal back; the inverse that makes the rendering injective.
  function ReadDecimal(s: string): int
    requires forall c | c in s :: IsDigit(c)
  {
    if s == "" then 0 else 10 * ReadDecimal(s[..|s| - 1]) + (s[|s| - 1] as int - '0' as int)
  }

  lemma {:induction false} ReadOfDecimal(n: nat)
    ensures ReadDecimal(Decimal(n)) == n
  {
    if n >= 10 {
      ReadOfDecimal(n / 10);
      assert Decimal(n)[..|Decimal(n)| - 1] == Decimal(n / 10);
    } else {
      assert ReadDecimal(Decimal(n)[..0]) == 0;
    }
  }

  lemma TrimDrops(s: string)
    requires s != ""
    ensures IsSpace(s[0]) ==> TrimSpace(s) == TrimSpace(s[1..])
    ensures !IsSpace(s[0]) && IsSpace(s[|s| - 1]) ==> TrimSpace(s) == TrimSpace(s[..|s| - 1])
    ensures !IsSpace(s[0]) && !IsSpace(s[|s| - 1]) ==> TrimSpace(s) == s
  {
  }

  // Trimming never cuts into a part that begins and ends with no space.
  lemma {:induction false} TrimKeeps(before: string, part: string, after: string) returns (left: string, right: string)
    requires part != "" && !IsSpace(part[0]) && !IsSpace(part[|part| - 1])
    ensures TrimSpace(before + part + after) == left + part + right
    decreases |before| + |after|
  {
    hide IsSpace, TrimSpace;
    var s := before + part + after;
    TrimDrops(s);
    if before != "" && IsSpace(before[0]) {
      assert s[0] == before[0] && s[1..] == before[1..] + part + after;
      left, right := TrimKeeps(before[1..], part, after);
    } else {
      assert before == "" ==> s[0] == part[0];
      assert before != "" ==> s[0] == before[0];
      if after != "" && IsSpace(after[|after| - 1]) {
        assert s[|s| - 1] == after[|after| - 1] && s[..|s| - 1] == before + part + after[..|after| - 1];
        left, right := TrimKeeps(before, part, after[..|after| - 1]);
      } else {
        assert after == "" ==> s[|s| - 1] == part[|part| - 1];
        assert after != "" ==> s[|s| - 1] == after[|after| - 1];
        left, right := before, after;
      }
    }
  }

  // A part is found in a text whatever stands around it and in whatever case the text is written.
  lemma ContainsPart(before: string, part: string, after: string)
    requires part != "" && !IsSpace(part[0]) && !IsSpace(part[|part| - 1])
    ensures Contains(ToLower(TrimSpace(before + part + after)), ToLower(part))
  {
    hide IsSpace, TrimSpace, LowerChar;
    var left, right := TrimKeeps(before, part, after);
    var text := ToLower(left + part + right);
    assert text[|left|..|left| + |part|] == ToLower(part);
    assert StartsAt(text, |left|, ToLower(part));
  }
}
