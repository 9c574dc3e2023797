/** The contract periods the platforms trade, and how long each is, read off its text: a number and a
    unit. */
module Periods {
  import opened Text

  const TRADED := {"30s", "45s", "1m", "3m", "5m", "10m", "15m", "30m", "1h", "2h", "4h"}

  // Periods are written in any case, with spaces around.
  function Plain(period: string): string { ToLower(TrimSpace(period)) }

  predicate IsTraded(period: string) { Plain(period) in TRADED }

  function UnitSeconds(unit: char): int { if unit == 's' then 1 else if unit == 'm' then 60 else 3600 }

  // The number in front of the unit, one or two digits.
  function Amount(digits: string): int
    requires 1 <= |digits| <= 2 && forall c | c in digits :: IsDigit(c)
  {
    ReadDecimal(digits)
  }

  lemma AmountOf(digits: string)
    requires 1 <= |digits| <= 2 && forall c | c in digits :: IsDigit(c)
    ensures Amount(digits) == if |digits| == 1 then digits[0] as int - '0' as int
                              else 10 * (digits[0] as int - '0' as int) + (digits[1] as int - '0' as int)
  {
    var first := [digits[0]];
    assert first[..0] == [] && ReadDecimal(first) == digits[0] as int - '0' as int;
    if |digits| == 1 {
      assert digits == first;
    } else {
      assert digits[..1] == first;
    }
  }

  lemma TradedShape(p: string)
    requires p in TRADED
    ensures 2 <= |p| <= 3 && forall i | 0 <= i < |p| - 1 :: IsDigit(p[i])
  {
  }

  // How long a traded period is.
  function Seconds(period: string): int
    requires IsTraded(period)
  {
    var p := Plain(period);
    TradedShape(p);
    Amount(p[..|p| - 1]) * UnitSeconds(p[|p| - 1])
  }

  lemma SecondsOf(p: string, period: string)
    requires Plain(period) == p && p in TRADED
    ensures 2 <= |p| <= 3
    ensures var number := if |p| == 2 then p[0] as int - '0' as int
                          else 10 * (p[0] as int - '0' as int) + (p[1] as int - '0' as int);
            Seconds(period) == number * UnitSeconds(p[|p| - 1])
  {
    hide Plain, TRADED;
    TradedShape(p);
    AmountOf(p[..|p| - 1]);
  }

  lemma TradedIsPlain(p: string)
    requires p in TRADED
    ensures Plain(p) == p && IsTraded(p)
  {
    assert Trimmed(p);
    assert TrimSpace(p) == p;
    hide TrimSpace;
    assert forall i | 0 <= i < |p| :: LowerChar(p[i]) == p[i];
  }

  lemma SecondsAre(p: string)
    requires p in TRADED
    ensures IsTraded(p) && 2 <= |p| <= 3
    ensures var number := if |p| == 2 then p[0] as int - '0' as int
                          else 10 * (p[0] as int - '0' as int) + (p[1] as int - '0' as int);
            Seconds(p) == number * UnitSeconds(p[|p| - 1])
  {
    TradedIsPlain(p);
    hide Plain, TRADED, IsTraded;
    SecondsOf(p, p);
  }

  lemma LiteralSeconds()
    ensures IsTraded("30s") && Seconds("30s") == 30 && IsTraded("45s") && Seconds("45s") == 45
    ensures IsTraded("1m") && Seconds("1m") == 60 && IsTraded("3m") && Seconds("3m") == 180
    ensures IsTraded("5m") && Seconds("5m") == 300 && IsTraded("10m") && Seconds("10m") == 600
    ensures IsTraded("15m") && Seconds("15m") == 900 && IsTraded("30m") && Seconds("30m") == 1800
    ensures IsTraded("1h") && Seconds("1h") == 3600 && IsTraded("2h") && Seconds("2h") == 7200
    ensures IsTraded("4h") && Seconds("4h") == 14_400
  {
    AllTraded();
    hide Plain, Seconds, IsTraded, TRADED;
    SecondsAre("30s");
    SecondsAre("45s");
    SecondsAre("1m");
    SecondsAre("3m");
    SecondsAre("5m");
    SecondsAre("10m");
    SecondsAre("15m");
    SecondsAre("30m");
    SecondsAre("1h");
    SecondsAre("2h");
    SecondsAre("4h");
  }

  lemma AllTraded()
    ensures "30s" in TRADED && "45s" in TRADED && "1m" in TRADED && "3m" in TRADED && "5m" in TRADED
    ensures "10m" in TRADED && "15m" in TRADED && "30m" in TRADED && "1h" in TRADED && "2h" in TRADED && "4h" in TRADED
  {
  }
}
