/**
 * The whole estimator of `fetch_data` (src/io.py:40-189): prior, parity
 * normalisation, gravity seed, epsilon floor, one fitting loop per
 * product and the assembly of the flow table.
 */
module Estimator {
  import opened Series
  import opened Domain
  import opened Prior
  import opened Marginals
  import opened Seeding
  import opened Furness
  import opened Assembly

  /** The fitting diagnostics of one product: did the loop converge, and after how many steps. */
  datatype Outcome = Outcome(product: Product, converged: bool, steps: nat)

  /** The distinct products of a (product, region) series, in order of first appearance. */
  function UniqueProducts(s: seq<Entry<Site>>): (r: seq<Product>)
    ensures forall i, j :: 0 <= i < j < |r| ==> r[i] != r[j]
    ensures forall i :: 0 <= i < |s| ==> s[i].key.product in r
    ensures forall j :: 0 <= j < |r| ==> exists i :: 0 <= i < |s| && s[i].key.product == r[j]
  {
    if s == [] then []
    else
      var init := s[..|s| - 1];
      var u := UniqueProducts(init);
      assert forall i :: 0 <= i < |init| ==> init[i] == s[i];
      if s[|s| - 1].key.product in u then u else u + [s[|s| - 1].key.product]
  }

  /** prods.xs(p): the entries of product p, indexed by region alone. */
  function ProductSlice(s: seq<Entry<Site>>, p: Product): (r: seq<Entry<Region>>)
    ensures forall i :: 0 <= i < |r| ==> Entry(Site(p, r[i].key), r[i].value) in s
    ensures forall i :: 0 <= i < |s| && s[i].key.product == p ==> s[i].key.region in KeysOf(r)
  {
    if s == [] then []
    else
      var init := s[..|s| - 1];
      var e := s[|s| - 1];
      var rest := ProductSlice(init, p);
      assert forall i :: 0 <= i < |init| ==> init[i] == s[i];
      if e.key.product == p then
        var r := rest + [Entry(e.key.region, e.value)];
        assert forall i :: 0 <= i < |rest| ==> r[i] == rest[i];
        assert KeysOf(rest) <= KeysOf(r);
        assert r[|rest|].key == e.key.region;
        r
      else rest
  }

  /** A slice of a positive series is positive. */
  lemma ProductSlicePositive(s: seq<Entry<Site>>, p: Product)
    requires AllPositive(s)
    ensures AllPositive(ProductSlice(s, p))
  {
    var r := ProductSlice(s, p);
    forall i | 0 <= i < |r| ensures r[i].value > 0.0 {
      var j :| 0 <= j < |s| && s[j] == Entry(Site(p, r[i].key), r[i].value);
    }
  }

  /** The cells (o, d) of product p for d < dd, in ascending destination order. */
  function RowCells(f: map<Cell, real>, p: Product, o: Region, dd: nat): (r: seq<Entry<Pair>>)
    ensures DistinctKeys(r)
    ensures forall i :: 0 <= i < |r| ==>
      r[i].key.origin == o && r[i].key.destination < dd &&
      Cell(o, r[i].key.destination, p) in f && r[i].value == f[Cell(o, r[i].key.destination, p)]
  {
    if dd == 0 then []
    else
      var c := Cell(o, dd - 1, p);
      var rest := RowCells(f, p, o, dd - 1);
      if c in f then rest + [Entry(Pair(o, dd - 1), f[c])] else rest
  }

  /** The cells of product p for origins below oo and destinations below n, ordered by origin then destination. */
  function GridCells(f: map<Cell, real>, p: Product, n: nat, oo: nat): (r: seq<Entry<Pair>>)
    ensures DistinctKeys(r)
    ensures forall i :: 0 <= i < |r| ==>
      r[i].key.origin < oo && r[i].key.destination < n &&
      Cell(r[i].key.origin, r[i].key.destination, p) in f &&
      r[i].value == f[Cell(r[i].key.origin, r[i].key.destination, p)]
  {
    if oo == 0 then []
    else
      var rest := GridCells(f, p, n, oo - 1);
      var row := RowCells(f, p, oo - 1, n);
      DistinctAppend(rest, row);
      rest + row
  }

  /** seed.xs(p): product p's block of the floored seed over the n regions. */
  function BlockOf(f: map<Cell, real>, p: Product, n: nat): seq<Entry<Pair>>
  {
    GridCells(f, p, n, n)
  }

  lemma {:induction false} RowCellsComplete(f: map<Cell, real>, p: Product, o: Region, dd: nat, d: Region)
    requires d < dd && Cell(o, d, p) in f
    ensures Pair(o, d) in KeysOf(RowCells(f, p, o, dd))
  {
    var rest := RowCells(f, p, o, dd - 1);
    if d < dd - 1 {
      RowCellsComplete(f, p, o, dd - 1, d);
    }
    if Cell(o, dd - 1, p) in f {
      var last := [Entry(Pair(o, dd - 1), f[Cell(o, dd - 1, p)])];
      assert last[0].key == Pair(o, dd - 1);
      KeysOfAppend(rest, last);
    }
  }

  lemma {:induction false} GridCellsComplete(f: map<Cell, real>, p: Product, n: nat, oo: nat, o: Region, d: Region)
    requires o < oo && d < n && Cell(o, d, p) in f
    ensures Pair(o, d) in KeysOf(GridCells(f, p, n, oo))
  {
    var rest := GridCells(f, p, n, oo - 1);
    var row := RowCells(f, p, oo - 1, n);
    KeysOfAppend(rest, row);
    if o < oo - 1 {
      GridCellsComplete(f, p, n, oo - 1, o, d);
    } else {
      RowCellsComplete(f, p, oo - 1, n, d);
    }
  }

  /**
   * The block of product p holds exactly the floored cells of p inside the
   * n x n region square, each with its floored value, once.
   */
  lemma BlockOfExact(f: map<Cell, real>, p: Product, n: nat, o: Region, d: Region)
    ensures DistinctKeys(BlockOf(f, p, n))
    ensures Pair(o, d) in KeysOf(BlockOf(f, p, n)) <==> o < n && d < n && Cell(o, d, p) in f
  {
    if o < n && d < n && Cell(o, d, p) in f {
      GridCellsComplete(f, p, n, n, o, d);
    }
  }

  /** The facts recorded for one fitted product. */
  predicate Fitted(floored: map<Cell, real>, n: nat, prods: seq<Entry<Site>>, cons: seq<Entry<Site>>,
                   b: Block, o: Outcome)
  {
    var seed := BlockOf(floored, b.product, n);
    var rowTargets := ProductSlice(prods, b.product);
    var colTargets := ProductSlice(cons, b.product);
    o.product == b.product && seed != [] &&
    b.cells == Iterate(seed, rowTargets, colTargets, o.steps) &&
    o.steps <= MaxSteps + 1 &&
    (o.converged <==> o.steps <= MaxSteps) &&
    (o.converged ==> StopsAfter(seed, rowTargets, colTargets, o.steps)) &&
    (forall j: nat :: j < o.steps ==> !StopsAfter(seed, rowTargets, colTargets, j))
  }

  /** Fits one product's block: seed.xs(p) balanced against prods.xs(p) and cons.xs(p). */
  method FitOne(floored: map<Cell, real>, p: Product, n: nat, prods: seq<Entry<Site>>, cons: seq<Entry<Site>>)
    returns (b: Block, o: Outcome)
    requires BlockOf(floored, p, n) != []
    ensures b.product == p && Fitted(floored, n, prods, cons, b, o)
  {
    var m, converged, steps := Balance(BlockOf(floored, p, n), ProductSlice(prods, p), ProductSlice(cons, p));
    b := Block(p, m);
    o := Outcome(p, converged, steps);
  }

  /** Some block of the list belongs to product p. */
  predicate HasBlock(blocks: seq<Block>, p: Product)
  {
    exists k :: 0 <= k < |blocks| && blocks[k].product == p
  }

  /** Appending a block keeps every product that had a block and adds the new one's. */
  lemma HasBlockSnoc(blocks: seq<Block>, b: Block, p: Product)
    requires HasBlock(blocks, p) || b.product == p
    ensures HasBlock(blocks + [b], p)
  {
    var all := blocks + [b];
    if b.product == p {
      assert all[|blocks|].product == p;
    } else {
      var k :| 0 <= k < |blocks| && blocks[k].product == p;
      assert all[k] == blocks[k];
    }
  }

  /** Every recorded block comes with the outcome of its own fitting. */
  predicate AllFitted(floored: map<Cell, real>, n: nat, prods: seq<Entry<Site>>, cons: seq<Entry<Site>>,
                      blocks: seq<Block>, outcomes: seq<Outcome>)
  {
    |blocks| == |outcomes| &&
    forall k :: 0 <= k < |blocks| ==> Fitted(floored, n, prods, cons, blocks[k], outcomes[k])
  }

  lemma AllFittedSnoc(floored: map<Cell, real>, n: nat, prods: seq<Entry<Site>>, cons: seq<Entry<Site>>,
                      blocks: seq<Block>, outcomes: seq<Outcome>, b: Block, o: Outcome)
    requires AllFitted(floored, n, prods, cons, blocks, outcomes)
    requires Fitted(floored, n, prods, cons, b, o)
    ensures AllFitted(floored, n, prods, cons, blocks + [b], outcomes + [o])
  {
    var bs, os := blocks + [b], outcomes + [o];
    forall k | 0 <= k < |bs| ensures Fitted(floored, n, prods, cons, bs[k], os[k]) {
      if k < |blocks| {
        assert bs[k] == blocks[k] && os[k] == outcomes[k];
      }
    }
  }

  /**
   * The per-product loop (src/io.py:145-183): for every product that has
   * cells in the floored seed, balance its block against its production
   * and consumption slices and collect the result with its diagnostics.
   */
  method FitAll(floored: map<Cell, real>, products: seq<Product>, n: nat,
                prods: seq<Entry<Site>>, cons: seq<Entry<Site>>)
    returns (blocks: seq<Block>, outcomes: seq<Outcome>)
    requires forall i, j :: 0 <= i < j < |products| ==> products[i] != products[j]
    ensures |blocks| == |outcomes|
    ensures DistinctProducts(blocks)
    ensures forall k :: 0 <= k < |blocks| ==> blocks[k].product in products
    ensures forall k :: 0 <= k < |blocks| ==> Fitted(floored, n, prods, cons, blocks[k], outcomes[k])
    ensures forall p :: p in products && BlockOf(floored, p, n) != [] ==> HasBlock(blocks, p)
  {
    blocks, outcomes := [], [];
    for i := 0 to |products|
      invariant AllFitted(floored, n, prods, cons, blocks, outcomes)
      invariant DistinctProducts(blocks)
      invariant forall k :: 0 <= k < |blocks| ==> blocks[k].product in products[..i]
      invariant forall p :: p in products[..i] && BlockOf(floored, p, n) != [] ==> HasBlock(blocks, p)
    {
      var p := products[i];
      assert products[..i + 1] == products[..i] + [p];
      if BlockOf(floored, p, n) != [] {
        var b, o := FitOne(floored, p, n, prods, cons);
        assert p !in products[..i];
        forall q | q in products[..i + 1] && BlockOf(floored, q, n) != [] {
          HasBlockSnoc(blocks, b, q);
        }
        AllFittedSnoc(floored, n, prods, cons, blocks, outcomes, b, o);
        blocks, outcomes := blocks + [b], outcomes + [o];
      }
    }
    assert products[..|products|] == products;
  }

  /** Puts a sequence of join rows into a fresh array, as the merged frame. */
  method ToArray(rows: seq<JoinedRow>) returns (a: array<JoinedRow>)
    ensures fresh(a) && a[..] == rows
  {
    a := new JoinedRow[|rows|](i requires 0 <= i < |rows| => rows[i]);
  }

  /**
   * The merged frame: the (product, region) totals of the positive
   * production and consumption entries that occur on both sides, each
   * side positive.
   */
  function JoinedTotals(productions: seq<Record>, consumptions: seq<Record>): (rows: seq<JoinedRow>)
    ensures ProdPositive(rows) && ConsPositive(rows)
  {
    TotalsPositive(PositiveRecords(productions));
    TotalsPositive(PositiveRecords(consumptions));
    InnerJoinPositive(Totals(PositiveRecords(productions)), Totals(PositiveRecords(consumptions)));
    InnerJoin(Totals(PositiveRecords(productions)), Totals(PositiveRecords(consumptions)))
  }

  /**
   * The marginals after parity (src/io.py:54-79): the merged frame is
   * rescaled in place product by product, then both columns are read
   * back as (product, region) series.
   */
  method ParityMarginals(productions: seq<Record>, consumptions: seq<Record>)
    returns (prods: seq<Entry<Site>>, cons: seq<Entry<Site>>)
    ensures prods == ProductionMarginal(Normalised(JoinedTotals(productions, consumptions)))
    ensures cons == ConsumptionMarginal(JoinedTotals(productions, consumptions))
    ensures AllPositive(prods) && AllPositive(cons)
  {
    var joined := JoinedTotals(productions, consumptions);
    var rows := ToArray(joined);
    NormaliseParity(rows);
    NormalisedMarginalsPositive(joined);
    ConsumptionUnchanged(joined);
    prods := ProductionMarginal(rows[..]);
    cons := ConsumptionMarginal(rows[..]);
  }

  /**
   * The floored seed (src/io.py:107-134): gravity cells over the products
   * of the consumption marginal and every ordered pair of the n regions,
   * then the epsilon floor.
   */
  method FlooredSeed(prior: seq<Entry<Pair>>, prods: seq<Entry<Site>>, cons: seq<Entry<Site>>, n: nat)
    returns (products: seq<Product>, floored: map<Cell, real>)
    requires AllPositive(prior) && AllPositive(prods) && AllPositive(cons)
    ensures products == UniqueProducts(cons)
    ensures forall c: Cell ::
      (c.product in products && c.origin < n && c.destination < n && Gravity(prods, cons, prior, c).Some?) ==>
        c in floored && floored[c] == Gravity(prods, cons, prior, c).value
    ensures forall c: Cell ::
      (c in floored && !(c.product in products && c.origin < n && c.destination < n && Gravity(prods, cons, prior, c).Some?)) ==>
        floored[c] == Epsilon
    ensures forall c :: c in floored ==> floored[c] > 0.0
    ensures floored == Floor(GravitySeeds(products, n, prods, cons, prior))
  {
    products := UniqueProducts(cons);
    var seeds := BuildSeeds(products, n, prods, cons, prior);
    forall c | c in seeds ensures seeds[c] > 0.0 {
      GravityPositive(prods, cons, prior, c);
    }
    FloorPositive(seeds);
    floored := Floor(seeds);
  }

  /**
   * The estimator end to end. The survey gives the prior; the positive
   * production and consumption entries are summed per (product, region),
   * inner-joined and brought to parity; the seed is built over the
   * products of the consumption marginal and all n x n region pairs,
   * floored, fitted product by product, and assembled. The intermediate
   * tables are returned beside the flow table; `ods` is `None` where
   * the concatenation raises.
   */
  method EstimateFlows(survey: seq<Shipment>, productions: seq<Record>, consumptions: seq<Record>, n: nat)
    returns (ods: Option<seq<Entry<Cell>>>, blocks: seq<Block>, outcomes: seq<Outcome>,
             prior: seq<Entry<Pair>>, prods: seq<Entry<Site>>, cons: seq<Entry<Site>>, floored: map<Cell, real>)
    ensures prior == EmpiricalPrior(survey)
    ensures prods == ProductionMarginal(Normalised(JoinedTotals(productions, consumptions)))
    ensures cons == ConsumptionMarginal(JoinedTotals(productions, consumptions))
    ensures floored == Floor(GravitySeeds(UniqueProducts(cons), n, prods, cons, prior))
    ensures AllFitted(floored, n, prods, cons, blocks, outcomes)
    ensures DistinctProducts(blocks)
    ensures forall k :: 0 <= k < |blocks| ==> blocks[k].product in UniqueProducts(cons)
    ensures forall p :: p in UniqueProducts(cons) && BlockOf(floored, p, n) != [] ==> HasBlock(blocks, p)
    ensures forall k :: 0 <= k < |blocks| ==> DistinctKeys(blocks[k].cells) && AllPositive(blocks[k].cells)
    ensures ods.None? <==> blocks == [] || exists k :: 0 <= k < |blocks| && |blocks[k].cells| == 1
    ensures ods.Some? ==> ods.value == Assemble(blocks)
    ensures ods.Some? ==> DistinctKeys(ods.value) && AllPositive(ods.value)
  {
    prior := EmpiricalPrior(survey);
    prods, cons := ParityMarginals(productions, consumptions);
    var products;
    products, floored := FlooredSeed(prior, prods, cons, n);
    blocks, outcomes := FitAll(floored, products, n, prods, cons);
    forall k | 0 <= k < |blocks| ensures AllPositive(blocks[k].cells) && DistinctKeys(blocks[k].cells) {
      assert Fitted(floored, n, prods, cons, blocks[k], outcomes[k]);
      BlockPositive(floored, blocks[k].product, n, prods, cons, outcomes[k].steps);
    }
    ods := Collect(blocks);
    AssemblePositive(blocks);
  }

  /** A fitted block of a positive floored seed with positive marginals is positive and keyed once per cell. */
  lemma BlockPositive(floored: map<Cell, real>, p: Product, n: nat, prods: seq<Entry<Site>>, cons: seq<Entry<Site>>, k: nat)
    requires forall c :: c in floored ==> floored[c] > 0.0
    requires AllPositive(prods) && AllPositive(cons)
    ensures AllPositive(Iterate(BlockOf(floored, p, n), ProductSlice(prods, p), ProductSlice(cons, p), k))
    ensures DistinctKeys(Iterate(BlockOf(floored, p, n), ProductSlice(prods, p), ProductSlice(cons, p), k))
  {
    var seed := BlockOf(floored, p, n);
    ProductSlicePositive(prods, p);
    ProductSlicePositive(cons, p);
    IteratePositive(seed, ProductSlice(prods, p), ProductSlice(cons, p), k);
    IterateDistinct(seed, ProductSlice(prods, p), ProductSlice(cons, p), k);
  }
}
