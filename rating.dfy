/**
 * The rating step of `simulateCost` (src/lib/actions.ts): every tariff is
 * priced against the six period totals. The "other costs" are the mocked
 * value of the source, 25 plus 2 per position in the tariff list.
 */
module Rating {
  import opened Data

  /** The dot product of two equally long vectors, as an independent definition of a priced sum. */
  function Dot(xs: seq<real>, ys: seq<real>): real
    requires |xs| == |ys|
  {
    if xs == [] then 0.0 else xs[0] * ys[0] + Dot(xs[1..], ys[1..])
  }

  /** The sum of a vector. */
  function Sum(xs: seq<real>): real {
    if xs == [] then 0.0 else xs[0] + Sum(xs[1..])
  }

  lemma SumStep(xs: seq<real>, k: nat)
    requires k < |xs|
    ensures Sum(xs[k..]) == xs[k] + Sum(xs[k + 1..])
  {
    assert xs[k..][1..] == xs[k + 1..];
  }

  lemma DotStep(xs: seq<real>, ys: seq<real>, k: nat)
    requires |xs| == |ys| && k < |xs|
    ensures Dot(xs[k..], ys[k..]) == xs[k] * ys[k] + Dot(xs[k + 1..], ys[k + 1..])
  {
    assert xs[k..][1..] == xs[k + 1..] && ys[k..][1..] == ys[k + 1..];
  }

  /** `totalKwhP1 + ... + totalKwhP6`. */
  function TotalKwh(totals: seq<real>): (r: real)
    requires |totals| == 6
    ensures r == Sum(totals)
  {
    SumStep(totals, 0); SumStep(totals, 1); SumStep(totals, 2);
    SumStep(totals, 3); SumStep(totals, 4); SumStep(totals, 5);
    assert totals[0..] == totals;
    totals[0] + totals[1] + totals[2] + totals[3] + totals[4] + totals[5]
  }

  /**
   * The cost of tariff `t` at position `index` of the tariff list, for the
   * period totals `totals` (P1 first): a yearly fixed fee of twelve monthly
   * terms, the energy prices dotted with the totals, and the mocked other
   * costs; the total is their sum and the rank is still 0.
   */
  function Rate(t: Tariff, index: nat, totals: seq<real>): (c: CompanyCost)
    requires |totals| == 6
    ensures c.id == t.id && c.name == t.companyName && c.rank == 0
    ensures c.fixedFee == 12.0 * t.fixedTerm
    ensures c.consumptionCost == Dot(t.EnergyPrices(), totals)
    ensures c.otherCosts == 25.0 + 2.0 * index as real
    ensures c.totalCost == c.fixedFee + c.consumptionCost + c.otherCosts
  {
    var fixedFee := t.fixedTerm * 12.0;
    var consumptionCost :=
      t.priceKwhP1 * totals[0] + t.priceKwhP2 * totals[1] + t.priceKwhP3 * totals[2]
      + t.priceKwhP4 * totals[3] + t.priceKwhP5 * totals[4] + t.priceKwhP6 * totals[5];
    var otherCosts := 25.0 + (index as real * 2.0);
    var p := t.EnergyPrices();
    DotStep(p, totals, 0); DotStep(p, totals, 1); DotStep(p, totals, 2);
    DotStep(p, totals, 3); DotStep(p, totals, 4); DotStep(p, totals, 5);
    assert p[0..] == p && totals[0..] == totals;
    CompanyCost(t.id, 0, t.companyName, fixedFee, consumptionCost, otherCosts, fixedFee + consumptionCost + otherCosts)
  }

  /** `availableTariffs.map((tariff, index) => ...)`: one cost per tariff, in input order. */
  function RateAll(ts: seq<Tariff>, totals: seq<real>): (r: seq<CompanyCost>)
    requires |totals| == 6
    ensures |r| == |ts| && forall i :: 0 <= i < |ts| ==> r[i] == Rate(ts[i], i, totals)
  {
    seq(|ts|, i requires 0 <= i < |ts| => Rate(ts[i], i, totals))
  }

  predicate NonNegative(xs: seq<real>) {
    forall i :: 0 <= i < |xs| ==> xs[i] >= 0.0
  }

  lemma {:induction false} DotNonNegative(xs: seq<real>, ys: seq<real>)
    requires |xs| == |ys| && NonNegative(xs) && NonNegative(ys)
    ensures Dot(xs, ys) >= 0.0
  {
    if xs != [] {
      DotNonNegative(xs[1..], ys[1..]);
      assert xs[0] * ys[0] >= 0.0;
    }
  }

  /** With non-negative prices, fixed term and consumption, a tariff costs at least its mocked other costs. */
  lemma RateLowerBound(t: Tariff, index: nat, totals: seq<real>)
    requires |totals| == 6 && NonNegative(totals) && NonNegative(t.EnergyPrices()) && t.fixedTerm >= 0.0
    ensures Rate(t, index, totals).totalCost >= 25.0 + 2.0 * index as real
  {
    DotNonNegative(t.EnergyPrices(), totals);
  }
}
