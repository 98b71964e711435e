/**
 * The empirical distribution prior (src/io.py, lines 40-45): the surveyed
 * shipped weight summed per (origin, destination) pair, restricted to the
 * pairs with a positive sum and divided by the sum of those.
 */
module Prior {
  import opened Series
  import opened Domain

  /** One surveyed shipment with its loaded weight. */
  datatype Shipment = Shipment(origin: Region, destination: Region, weight: real)

  /** The survey as a series indexed by region pair. */
  function Observations(survey: seq<Shipment>): seq<Entry<Pair>>
  {
    seq(|survey|, i requires 0 <= i < |survey| =>
      Entry(Pair(survey[i].origin, survey[i].destination), survey[i].weight))
  }

  /** Weight per pair, keeping only the pairs whose summed weight is positive. */
  function PairTotals(survey: seq<Shipment>): seq<Entry<Pair>>
  {
    KeepPositive(GroupSum(Observations(survey)))
  }

  /**
   * The prior: each retained pair's summed weight over the total of the
   * retained weights. When no pair has a positive weight the prior is empty.
   */
  function EmpiricalPrior(survey: seq<Shipment>): (prior: seq<Entry<Pair>>)
    ensures DistinctKeys(prior)
    ensures AllPositive(prior)
  {
    var sums := PairTotals(survey);
    KeepPositiveKeys(GroupSum(Observations(survey)));
    if sums == [] then []
    else
      TotalPositive(sums);
      DivideByKeeps(sums, Total(sums));
      DivideBy(sums, Total(sums))
  }

  /** The pairs the prior retains are exactly the surveyed pairs with positive summed weight. */
  lemma {:induction false} PriorSupport(survey: seq<Shipment>, k: Pair)
    ensures k in KeysOf(EmpiricalPrior(survey)) <==>
      k in KeysOf(Observations(survey)) && KeySum(Observations(survey), k) > 0.0
  {
    var sums := PairTotals(survey);
    if sums != [] {
      TotalPositive(sums);
      DivideByKeeps(sums, Total(sums));
    }
    PositiveGroups(Observations(survey), k);
  }

  /**
   * The prior weight of a pair is its summed surveyed weight over the total
   * retained weight, and a pair without positive weight has no entry.
   */
  lemma {:induction false} PriorWeight(survey: seq<Shipment>, k: Pair)
    ensures Lookup(EmpiricalPrior(survey), k).Some? <==>
      k in KeysOf(Observations(survey)) && KeySum(Observations(survey), k) > 0.0
    ensures Lookup(EmpiricalPrior(survey), k).Some? ==>
      Total(PairTotals(survey)) > 0.0 &&
      Lookup(EmpiricalPrior(survey), k) == Some(KeySum(Observations(survey), k) / Total(PairTotals(survey)))
  {
    PriorSupport(survey, k);
    var sums := PairTotals(survey);
    if k in KeysOf(sums) {
      KeepPositiveKeys(GroupSum(Observations(survey)));
      TotalPositive(sums);
      LookupDivideBy(sums, Total(sums), k);
      LookupPositiveGroups(Observations(survey), k);
    }
  }

  /** Whenever some pair carries positive weight, the retained weights sum to exactly 1. */
  lemma {:induction false} PriorSumsToOne(survey: seq<Shipment>)
    requires EmpiricalPrior(survey) != []
    ensures Total(EmpiricalPrior(survey)) == 1.0
  {
    var sums := PairTotals(survey);
    TotalPositive(sums);
    TotalNormalised(sums);
  }
}
