/** Weighted dispatch: accounts with less than the average balance are more likely to be picked. The
    weights and the draw are real numbers. */
module WeightedChoice {
  import opened Options

  // Accounts whose balance is known and positive.
  predicate Known(balances: map<string, real>, id: string) { id in balances && balances[id] > 0.0 }

  function TotalKnown(balances: map<string, real>, ids: seq<string>): real {
    if ids == [] then 0.0
    else
      var n := |ids| - 1;
      TotalKnown(balances, ids[..n]) + if Known(balances, ids[n]) then balances[ids[n]] else 0.0
  }

  function CountKnown(balances: map<string, real>, ids: seq<string>): nat {
    if ids == [] then 0
    else
      var n := |ids| - 1;
      CountKnown(balances, ids[..n]) + if Known(balances, ids[n]) then 1 else 0
  }

  lemma {:induction false} TotalPositive(balances: map<string, real>, ids: seq<string>)
    ensures TotalKnown(balances, ids) >= 0.0
    ensures CountKnown(balances, ids) == 0 <==> forall i | 0 <= i < |ids| :: !Known(balances, ids[i])
    ensures CountKnown(balances, ids) > 0 ==> TotalKnown(balances, ids) > 0.0
  {
    if ids != [] {
      var n := |ids| - 1;
      TotalPositive(balances, ids[..n]);
      assert forall i | 0 <= i < n :: ids[..n][i] == ids[i];
    }
  }

  function Average(balances: map<string, real>, ids: seq<string>): real
    requires CountKnown(balances, ids) > 0
  {
    TotalKnown(balances, ids) / CountKnown(balances, ids) as real
  }

  function Ratio(average: real, balance: real): real
    requires average > 0.0
  {
    (average - balance) / average
  }

  // One account's weight for a given average.
  function WeightAt(average: real, balance: real): real
    requires average > 0.0
  {
    var ratio := Ratio(average, balance);
    1.0 + 2.0 * (if ratio < 0.0 then 0.0 else if ratio > 1.0 then 1.0 else ratio)
  }

  function Weight(balances: map<string, real>, ids: seq<string>, id: string): real {
    TotalPositive(balances, ids);
    if CountKnown(balances, ids) == 0 || !Known(balances, id) then 1.0
    else AverageIsPositive(balances, ids); WeightAt(Average(balances, ids), balances[id])
  }

  lemma AverageIsPositive(balances: map<string, real>, ids: seq<string>)
    requires CountKnown(balances, ids) > 0
    ensures Average(balances, ids) > 0.0
    ensures Average(balances, ids) * CountKnown(balances, ids) as real == TotalKnown(balances, ids)
  {
    TotalPositive(balances, ids);
  }

  method WeightsForTasks(ids: seq<string>, provider: Option<map<string, real>>) returns (weights: array<real>)
    ensures fresh(weights) && weights.Length == |ids|
    ensures forall i | 0 <= i < |ids| ::
              weights[i] == if provider.Some? then Weight(provider.value, ids, ids[i]) else 1.0
  {
    hide Ratio;
    weights := new real[|ids|](_ => 1.0);
    if provider == None {
      return;
    }
    var balances := provider.value;
    var target, valid := 0.0, 0;
    for i := 0 to |ids|
      invariant target == TotalKnown(balances, ids[..i]) && valid == CountKnown(balances, ids[..i])
    {
      assert ids[..i + 1][..i] == ids[..i];
      if ids[i] in balances && balances[ids[i]] > 0.0 {
        target, valid := target + balances[ids[i]], valid + 1;
      }
    }
    assert ids[..|ids|] == ids;
    TotalPositive(balances, ids);
    if valid == 0 || target <= 0.0 {
      return;
    }
    target := target / valid as real;
    AverageIsPositive(balances, ids);
    for i := 0 to |ids|
      invariant forall k | 0 <= k < |ids| ::
                  weights[k] == if k < i then Weight(balances, ids, ids[k]) else 1.0
    {
      if ids[i] !in balances || balances[ids[i]] <= 0.0 {
        continue;
      }
      var ratio := Ratio(target, balances[ids[i]]);
      if ratio < 0.0 {
        ratio := 0.0;
      }
      if ratio > 1.0 {
        ratio := 1.0;
      }
      weights[i] := 1.0 + 2.0 * ratio;
    }
  }

  /* ---- What the weights are for ---- */

  lemma SignOfProduct(a: real, t: real)
    requires t > 0.0
    ensures a * t > 0.0 <==> a > 0.0
    ensures a * t < 0.0 <==> a < 0.0
  {
  }

  lemma RatioBounds(average: real, balance: real)
    requires average > 0.0 && balance > 0.0
    ensures Ratio(average, balance) < 1.0
    ensures Ratio(average, balance) < 0.0 <==> balance > average
    ensures Ratio(average, balance) * average == average - balance
  {
    var r := Ratio(average, balance);
    assert r * average == average - balance;
    SignOfProduct(r, average);
    assert (1.0 - r) * average == balance;
    SignOfProduct(1.0 - r, average);
  }

  lemma WeightAtAntitone(average: real, less: real, more: real)
    requires average > 0.0 && 0.0 < less <= more
    ensures WeightAt(average, less) >= WeightAt(average, more)
    ensures less < more && less < average ==> WeightAt(average, less) > WeightAt(average, more)
  {
    hide Ratio;
    RatioBounds(average, less);
    RatioBounds(average, more);
    var d := Ratio(average, less) - Ratio(average, more);
    assert d * average == more - less;
    SignOfProduct(d, average);
    if less < average {
      SignOfProduct(Ratio(average, less), average);
    }
  }

  // Weights lie in [1, 3): no account is ever three times as likely as another.
  lemma WeightInRange(balances: map<string, real>, ids: seq<string>, id: string)
    ensures 1.0 <= Weight(balances, ids, id) < 3.0
  {
    if CountKnown(balances, ids) > 0 && Known(balances, id) {
      AverageIsPositive(balances, ids);
      RatioBounds(Average(balances, ids), balances[id]);
    }
  }

  // A known account with less money never weighs less, and below the average strictly more.
  lemma WeightAntitone(balances: map<string, real>, ids: seq<string>, a: string, b: string)
    requires Known(balances, a) && Known(balances, b) && balances[a] <= balances[b] && CountKnown(balances, ids) > 0
    ensures Weight(balances, ids, a) >= Weight(balances, ids, b)
    ensures balances[a] < balances[b] && balances[a] < Average(balances, ids) ==>
              Weight(balances, ids, a) > Weight(balances, ids, b)
  {
    hide Average, WeightAt;
    AverageIsPositive(balances, ids);
    WeightAtAntitone(Average(balances, ids), balances[a], balances[b]);
  }

  function Excess(balances: map<string, real>, ids: seq<string>, average: real): real {
    if ids == [] then 0.0
    else
      var n := |ids| - 1;
      Excess(balances, ids[..n], average)
      + if Known(balances, ids[n]) && balances[ids[n]] > average then balances[ids[n]] - average else 0.0
  }

  function Shortfall(balances: map<string, real>, ids: seq<string>, average: real): real {
    if ids == [] then 0.0
    else
      var n := |ids| - 1;
      Shortfall(balances, ids[..n], average)
      + if Known(balances, ids[n]) && balances[ids[n]] < average then average - balances[ids[n]] else 0.0
  }

  function ExtraWeight(balances: map<string, real>, ids: seq<string>, all: seq<string>): real {
    if ids == [] then 0.0
    else
      var n := |ids| - 1;
      ExtraWeight(balances, ids[..n], all) + (Weight(balances, all, ids[n]) - 1.0)
  }

  lemma {:induction false} ExcessVersusShortfall(balances: map<string, real>, ids: seq<string>, t: real)
    ensures Excess(balances, ids, t) - Shortfall(balances, ids, t) ==
            TotalKnown(balances, ids) - t * CountKnown(balances, ids) as real
  {
    if ids != [] {
      var n := |ids| - 1;
      ExcessVersusShortfall(balances, ids[..n], t);
      var c := CountKnown(balances, ids[..n]);
      assert t * (c + 1) as real == t * c as real + t;
    }
  }

  lemma {:induction false} ExtraIsShortfall(balances: map<string, real>, ids: seq<string>, all: seq<string>)
    requires CountKnown(balances, all) > 0
    ensures ExtraWeight(balances, ids, all) * Average(balances, all) ==
            2.0 * Shortfall(balances, ids, Average(balances, all))
  {
    hide Average, WeightAt;
    var t := Average(balances, all);
    if ids != [] {
      var n := |ids| - 1;
      ExtraIsShortfall(balances, ids[..n], all);
      AverageIsPositive(balances, all);
      if Known(balances, ids[n]) {
        ExtraOfOne(t, balances[ids[n]]);
      }
      SumTimes(ExtraWeight(balances, ids[..n], all), Weight(balances, all, ids[n]) - 1.0, t);
    }
  }

  lemma SumTimes(a: real, b: real, t: real)
    ensures (a + b) * t == a * t + b * t
  {
  }

  lemma ExtraOfOne(t: real, balance: real)
    requires t > 0.0 && balance > 0.0
    ensures (WeightAt(t, balance) - 1.0) * t == 2.0 * if balance < t then t - balance else 0.0
  {
    RatioBounds(t, balance);
    var r := Ratio(t, balance);
    if balance <= t {
      assert WeightAt(t, balance) - 1.0 == 2.0 * r;
      assert (2.0 * r) * t == 2.0 * (r * t);
    }
  }

  // The weight given away is twice the balance above the average, in units of the average: what the
  // rich accounts hold too much is what the poor ones gain.
  lemma ExtraWeightIsExcess(balances: map<string, real>, ids: seq<string>)
    requires CountKnown(balances, ids) > 0
    ensures ExtraWeight(balances, ids, ids) * Average(balances, ids) ==
            2.0 * Excess(balances, ids, Average(balances, ids))
  {
    hide Average, Weight, ExtraWeight, Excess, Shortfall, TotalKnown, CountKnown;
    AverageIsPositive(balances, ids);
    ExtraIsShortfall(balances, ids, ids);
    ExcessVersusShortfall(balances, ids, Average(balances, ids));
  }

  /* ---- The draw ---- */

  function Positive(w: real): real { if w > 0.0 then w else 0.0 }

  // The cumulative weight of the first n entries.
  function Sum(weights: seq<real>): (t: real)
    ensures t >= 0.0
  {
    if weights == [] then 0.0 else Sum(weights[..|weights| - 1]) + Positive(weights[|weights| - 1])
  }

  // Entry i's interval: as long as its weight, right after those before it. A draw of exactly zero
  // belongs to the first entry with a weight.
  ghost predicate Owns(weights: seq<real>, i: nat, point: real)
    requires i < |weights|
  {
    weights[i] > 0.0 && point <= Sum(weights[..i + 1]) &&
    (Sum(weights[..i]) < point || (point == 0.0 && Sum(weights[..i]) == 0.0))
  }

  lemma SumStep(weights: seq<real>, i: nat)
    requires i < |weights|
    ensures Sum(weights[..i + 1]) == Sum(weights[..i]) + Positive(weights[i])
  {
    assert weights[..i + 1][..i] == weights[..i];
  }

  lemma {:induction false} SumMonotone(weights: seq<real>, i: nat, j: nat)
    requires i <= j <= |weights|
    ensures Sum(weights[..i]) <= Sum(weights[..j])
    decreases j
  {
    if i < j {
      SumStep(weights, j - 1);
      SumMonotone(weights, i, j - 1);
    }
  }

  // The intervals do not overlap, so a draw has one owner; each is exactly as long as its weight.
  lemma OneOwner(weights: seq<real>, i: nat, j: nat, point: real)
    requires i < |weights| && j < |weights| && Owns(weights, i, point) && Owns(weights, j, point)
    ensures i == j
    ensures Sum(weights[..i + 1]) - Sum(weights[..i]) == weights[i]
  {
    SumStep(weights, i);
    SumStep(weights, j);
    if i < j {
      SumMonotone(weights, i + 1, j);
    } else if j < i {
      SumMonotone(weights, j + 1, i);
    }
  }

  // Where a draw falls on the line of all weights.
  function Point(draw: real, total: real): real { draw * total }

  // The running subtraction: it always returns inside the loop.
  method Locate(weights: seq<real>, point: real) returns (i: int)
    requires 0.0 <= point < Sum(weights)
    ensures 0 <= i < |weights| && Owns(weights, i, point)
  {
    assert weights[..|weights|] == weights;
    var r := point;
    for k := 0 to |weights|
      invariant r == point - Sum(weights[..k])
      invariant r > 0.0 || (r == 0.0 == point)
    {
      SumStep(weights, k);
      if weights[k] <= 0.0 {
        continue;
      }
      r := r - weights[k];
      if r <= 0.0 {
        return k;
      }
    }
    return |weights| - 1;
  }

  /** `draw` is rand.Float64 and `uniform` rand.Intn over the list. The index is the one owner of the
      drawn point, so the fall-through behind the loop is never reached. */
  method WeightedIndex(weights: seq<real>, draw: real, uniform: nat) returns (i: int)
    requires 0.0 <= draw < 1.0 && (weights != [] ==> uniform < |weights|)
    ensures weights == [] ==> i == -1
    ensures weights != [] && Sum(weights) == 0.0 ==> i == uniform
    ensures weights != [] && Sum(weights) > 0.0 ==> 0 <= i < |weights| && Owns(weights, i, Point(draw, Sum(weights)))
  {
    hide Point;
    if |weights| == 0 {
      return -1;
    }
    var total := 0.0;
    for k := 0 to |weights|
      invariant total == Sum(weights[..k])
    {
      SumStep(weights, k);
      if weights[k] > 0.0 {
        total := total + weights[k];
      }
    }
    assert weights[..|weights|] == weights;
    if total <= 0.0 {
      return uniform;
    }
    var r := Point(draw, total);
    DrawBelow(draw, total);
    i := Locate(weights, r);
  }

  lemma DrawBelow(draw: real, total: real)
    requires 0.0 <= draw < 1.0 && total > 0.0
    ensures 0.0 <= Point(draw, total) < total
  {
    assert (1.0 - draw) * total == total - Point(draw, total);
    SignOfProduct(draw, total);
    SignOfProduct(1.0 - draw, total);
  }
}
