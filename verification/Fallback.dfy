/** Dispatch to a single account, with fallback: when the picked account is unusable, the other
    matched accounts are tried in a cycle that starts behind it. */
module Fallback {
  import opened Options
  import opened Division

  // How one PlaceOrder call ends; a fallback error is a limit, exhausted retries or a dead account.
  datatype Outcome = Success | FallbackError | OtherError

  const MAX_FALLBACK_ATTEMPTS := 5

  // First position of an account, or |matched|.
  function IndexOf(matched: seq<string>, id: string): (i: nat)
    ensures i <= |matched|
    ensures i < |matched| ==> matched[i] == id
    ensures forall j | 0 <= j < i :: matched[j] != id
  {
    if matched == [] then 0
    else if matched[0] == id then 0
    else
      var i := IndexOf(matched[1..], id);
      assert forall j | 1 <= j < i + 1 :: matched[j] == matched[1..][j - 1];
      i + 1
  }

  // Where the cycle starts: behind the failed account, or at the top.
  function Start(matched: seq<string>, id: string): (start: nat)
    ensures matched != [] ==> start < |matched|
  {
    var i := IndexOf(matched, id);
    if i + 1 >= |matched| then 0 else i + 1
  }

  // The account of the k-th fallback attempt (from 1).
  function Target(matched: seq<string>, primary: string, k: nat): string
    requires matched != [] && k >= 1
  {
    matched[(Start(matched, primary) + (k - 1)) % |matched|]
  }

  /** `outcomes(k)` is what the k-th PlaceOrder call returns; `calls` are the accounts called. */
  method ExecuteTaskWithFallback(primary: string, matched: seq<string>, outcomes: nat -> Outcome)
    returns (calls: seq<string>, placed: bool)
    ensures 1 <= |calls| <= 1 + MAX_FALLBACK_ATTEMPTS && calls[0] == primary
    ensures matched == [] ==> |calls| == 1
    ensures matched != [] ==> forall k | 1 <= k < |calls| :: calls[k] == Target(matched, primary, k)
    ensures forall k | 0 <= k < |calls| - 1 :: outcomes(k) == FallbackError
    ensures placed <==> outcomes(|calls| - 1) == Success
    ensures outcomes(|calls| - 1) == FallbackError ==> matched == [] || |calls| == 1 + MAX_FALLBACK_ATTEMPTS
  {
    calls := [primary];
    if outcomes(0) == Success {
      return calls, true;
    }
    if outcomes(0) == FallbackError {
      var ok, log := TryFallbackOrder(primary, matched, outcomes);
      return log, ok;
    }
    return calls, false;
  }

  method TryFallbackOrder(excludeID: string, matched: seq<string>, outcomes: nat -> Outcome)
    returns (placed: bool, calls: seq<string>)
    requires outcomes(0) == FallbackError
    ensures 1 <= |calls| <= 1 + MAX_FALLBACK_ATTEMPTS && calls[0] == excludeID
    ensures matched == [] ==> |calls| == 1
    ensures matched != [] ==> forall k | 1 <= k < |calls| :: calls[k] == Target(matched, excludeID, k)
    ensures forall k | 0 <= k < |calls| - 1 :: outcomes(k) == FallbackError
    ensures placed <==> outcomes(|calls| - 1) == Success
    ensures outcomes(|calls| - 1) == FallbackError ==> matched == [] || |calls| == 1 + MAX_FALLBACK_ATTEMPTS
  {
    calls := [excludeID];
    if |matched| == 0 {
      return false, calls;
    }
    var start := 0;
    for i := 0 to |matched|
      invariant start == 0 && i <= IndexOf(matched, excludeID)
    {
      if matched[i] == excludeID {
        start := i + 1;
        break;
      }
    }
    if start >= |matched| {
      start := 0;
    }
    assert start == Start(matched, excludeID);
    for attempt := 0 to MAX_FALLBACK_ATTEMPTS
      invariant |calls| == attempt + 1 && calls[0] == excludeID
      invariant forall k | 1 <= k < |calls| :: calls[k] == Target(matched, excludeID, k)
      invariant forall k | 0 <= k < |calls| :: outcomes(k) == FallbackError
    {
      var task := matched[(start + attempt) % |matched|];
      calls := calls + [task];
      match outcomes(attempt + 1) {
        case Success => return true, calls;
        case FallbackError =>
        case OtherError => return false, calls;
      }
    }
    return false, calls;
  }

  // With distinct accounts the k-th attempt goes k places behind the primary, cyclically.
  lemma TargetIsCyclic(matched: seq<string>, p: nat, k: nat)
    requires p < |matched| && k >= 1 && forall i, j | 0 <= i < j < |matched| :: matched[i] != matched[j]
    ensures Target(matched, matched[p], k) == matched[(p + k) % |matched|]
  {
    var m := |matched|;
    assert IndexOf(matched, matched[p]) == p;
    if p + 1 == m {
      SumOfQuotients(m, k - 1, m);
      DivMod(m, m, 1, 0);
      assert p + k == m + (k - 1);
      var q, r := (k - 1) / m, (k - 1) % m;
      MulSum(q, 1, m);
      DivMod(p + k, m, q + 1, r);
    }
  }

  // Exactly every |matched|-th attempt comes back to the primary.
  lemma AttemptHitsPrimaryIff(matched: seq<string>, p: nat, k: nat)
    requires p < |matched| && k >= 1 && forall i, j | 0 <= i < j < |matched| :: matched[i] != matched[j]
    ensures Target(matched, matched[p], k) == matched[p] <==> k % |matched| == 0
  {
    var m := |matched|;
    TargetIsCyclic(matched, p, k);
    ShiftIsIdentityIff(p, k, m);
  }

  lemma ShiftIsIdentityIff(p: nat, k: nat, m: nat)
    requires p < m
    ensures (p + k) % m == p <==> k % m == 0
  {
    var q, r := k / m, k % m;
    assert k == q * m + r;
    if p + r < m {
      DivMod(p + k, m, q, p + r);
    } else {
      MulSum(q, 1, m);
      DivMod(p + k, m, q + 1, p + r - m);
    }
  }

  // The first |matched| - 1 attempts go to pairwise different accounts, none of them the primary.
  lemma FirstAttemptsDistinct(matched: seq<string>, p: nat, k: nat, l: nat)
    requires p < |matched| && forall i, j | 0 <= i < j < |matched| :: matched[i] != matched[j]
    requires 1 <= k <= |matched| - 1 && 1 <= l <= |matched| - 1
    ensures Target(matched, matched[p], k) != matched[p]
    ensures k != l ==> Target(matched, matched[p], k) != Target(matched, matched[p], l)
  {
    var m := |matched|;
    TargetIsCyclic(matched, p, k);
    TargetIsCyclic(matched, p, l);
    Wrap(p + k, m);
    Wrap(p + l, m);
  }

  lemma Wrap(x: nat, m: nat)
    requires m >= 1 && x < 2 * m
    ensures x % m == if x < m then x else x - m
  {
    if x < m {
      DivMod(x, m, 0, x);
    } else {
      DivMod(x, m, 1, x - m);
    }
  }
}
