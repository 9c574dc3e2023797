/** The amount of an order that is sized by the account's balance, and what the limits checked on a
    binding are good for. */
module OrderAmount {
  import opened Options
  import opened Text
  import opened StrategyConfig

  // What an order is sent with: the configured text, a number, or no order at all.
  datatype Amount = Fixed(text: string) | Sized(value: real) | Skipped

  function Unsized(b: Binding): Amount {
    if b.minAmount > 0.0 then Sized(b.minAmount)
    else if TrimSpace(b.amount) != "" then Fixed(TrimSpace(b.amount))
    else Skipped
  }

  function Share(balance: real, percent: real): real { balance * percent / 100.0 }

  // A floor and a cap, each if it is set; the cap has the last word.
  function Clamped(share: real, floor: real, cap: real): real {
    var floored := if floor > 0.0 && share < floor then floor else share;
    if cap > 0.0 && floored > cap then cap else floored
  }

  function AmountOf(b: Binding, balance: Option<real>): Amount {
    if b.percent <= 0.0 then Fixed(TrimSpace(b.amount))
    else if balance == None || balance.value <= 0.0 then Unsized(b)
    else
      var amt := Clamped(Share(balance.value, b.percent), b.minAmount, b.maxAmount);
      if amt <= 0.0 then Skipped else Sized(amt)
  }

  method DynamicAmount(b: Binding, balances: map<string, real>) returns (amount: Amount)
    ensures amount == AmountOf(b, if b.accountId in balances then Some(balances[b.accountId]) else None)
    ensures b.percent <= 0.0 ==> amount == Fixed(TrimSpace(b.amount))
  {
    hide TrimSpace;
    if b.percent <= 0.0 {
      return Fixed(TrimSpace(b.amount));
    }
    if b.accountId !in balances || balances[b.accountId] <= 0.0 {
      if b.minAmount > 0.0 {
        return Sized(b.minAmount);
      }
      var text := TrimSpace(b.amount);
      return if text != "" then Fixed(text) else Skipped;
    }
    var amt := balances[b.accountId] * b.percent / 100.0;
    if b.minAmount > 0.0 && amt < b.minAmount {
      amt := b.minAmount;
    }
    if b.maxAmount > 0.0 && amt > b.maxAmount {
      amt := b.maxAmount;
    }
    return if amt <= 0.0 then Skipped else Sized(amt);
  }

  // Never an empty or non-positive size: without a usable balance the floor, then the fixed amount, and
  // otherwise no order.
  lemma NeverUnsized(b: Binding, balance: Option<real>)
    requires b.percent > 0.0
    ensures var a := AmountOf(b, balance);
            && (a.Sized? ==> a.value > 0.0)
            && (a.Fixed? ==> a.text != "" && (balance == None || balance.value <= 0.0))
            && (a == Skipped && (balance == None || balance.value <= 0.0) ==> b.minAmount <= 0.0)
  {
  }

  lemma ShareOf(balance: real, percent: real)
    requires 0.0 < balance && 0.0 < percent
    ensures 0.0 < Share(balance, percent)
    ensures percent <= 100.0 <==> Share(balance, percent) <= balance
  {
    if percent <= 100.0 {
      assert balance * (100.0 - percent) >= 0.0;
    } else {
      assert balance * (percent - 100.0) > 0.0;
    }
  }

  // An accepted binding, at any balance: the order lies between the limits that are set, and above the
  // balance only where the configured floor puts it.
  lemma AcceptedBindingSizes(b: Binding, balance: real)
    requires SafeBinding(b) && 0.0 < b.percent && 0.0 < balance
    ensures var a := AmountOf(b, Some(balance));
            && a.Sized? && b.minAmount <= a.value && (b.maxAmount > 0.0 ==> a.value <= b.maxAmount)
            && (a.value <= balance || a.value == b.minAmount)
            && (a.value == Share(balance, b.percent) || a.value == b.minAmount || a.value == b.maxAmount)
  {
    hide TrimSpace, Share, Clamped;
    ShareOf(balance, b.percent);
    ClampedBetween(Share(balance, b.percent), b.minAmount, b.maxAmount);
  }

  lemma ClampedBetween(share: real, floor: real, cap: real)
    requires 0.0 < share && 0.0 <= floor && 0.0 <= cap && (floor == 0.0 || cap == 0.0 || floor <= cap)
    ensures var amt := Clamped(share, floor, cap);
            && 0.0 < amt && floor <= amt && (cap > 0.0 ==> amt <= cap) && (amt <= share || amt == floor)
            && (amt == share || amt == floor || amt == cap)
  {
  }

  ghost predicate KeepsToBalance(b: Binding) {
    forall balance: real :: 0.0 < balance ==> AmountOf(b, Some(balance)) in Within(0.0, balance)
  }

  ghost function Within(low: real, high: real): iset<Amount> {
    iset a: Amount | a.Sized? && low <= a.value <= high
  }

  // What the upper limit of 100 percent is for: without limits, it alone keeps orders within the balance.
  lemma ShareIsWithinBalanceIff(b: Binding)
    requires TrimSpace(b.accountId) != "" && 0.0 < b.percent && b.minAmount == 0.0 && b.maxAmount == 0.0
    ensures SafeBinding(b) <==> KeepsToBalance(b)
  {
    hide TrimSpace;
    if SafeBinding(b) {
      forall balance: real | 0.0 < balance
        ensures AmountOf(b, Some(balance)) in Within(0.0, balance)
      {
        AcceptedBindingSizes(b, balance);
      }
    } else {
      ShareOf(1.0, b.percent);
      assert AmountOf(b, Some(1.0)) !in Within(0.0, 1.0);
    }
  }

  ghost predicate KeepsToLimits(b: Binding) {
    forall balance: real :: 0.0 < balance ==> AmountOf(b, Some(balance)) in Within(b.minAmount, b.maxAmount)
  }

  // What refusing crossed limits is for: with both limits set, every order keeps to them exactly then.
  lemma LimitsAreKeptIff(b: Binding)
    requires TrimSpace(b.accountId) != "" && 0.0 < b.percent <= 100.0 && 0.0 < b.minAmount && 0.0 < b.maxAmount
    ensures SafeBinding(b) <==> KeepsToLimits(b)
  {
    hide TrimSpace;
    if SafeBinding(b) {
      forall balance: real | 0.0 < balance
        ensures AmountOf(b, Some(balance)) in Within(b.minAmount, b.maxAmount)
      {
        AcceptedBindingSizes(b, balance);
      }
    } else {
      assert AmountOf(b, Some(1.0)) !in Within(b.minAmount, b.maxAmount);
    }
  }
}
