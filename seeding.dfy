/**
 * The gravity seed (src/io.py:107-125, src/utils.py:23-36) and the epsilon
 * floor over the (origin, product) x destination rectangle (src/io.py:128-134).
 */
module Seeding {
  import opened Series
  import opened Domain

  /** A cell of the stacked seed table: (origin, destination, product). */
  datatype Cell = Cell(origin: Region, destination: Region, product: Product)

  /** The value given to every missing cell of the rectangle. */
  const Epsilon: real := 0.001

  /**
   * The gravity formula for one cell: production at the origin times
   * consumption at the destination times the prior weight of the pair;
   * `None` when any of the three labels is missing (the skipped KeyError).
   */
  function Gravity(prods: seq<Entry<Site>>, cons: seq<Entry<Site>>, prior: seq<Entry<Pair>>, c: Cell): (g: Option<real>)
    ensures g.Some? <==>
      Site(c.product, c.origin) in KeysOf(prods) && Site(c.product, c.destination) in KeysOf(cons)
      && Pair(c.origin, c.destination) in KeysOf(prior)
  {
    var a := Lookup(prods, Site(c.product, c.origin));
    var b := Lookup(cons, Site(c.product, c.destination));
    var w := Lookup(prior, Pair(c.origin, c.destination));
    if a.Some? && b.Some? && w.Some? then Some(a.value * b.value * w.value) else None
  }

  lemma MulPositive(a: real, b: real, w: real)
    requires a > 0.0 && b > 0.0 && w > 0.0
    ensures a * b * w > 0.0
  {
    assert a * b > 0.0;
  }

  /** With positive marginals and a positive prior, every seed value is positive. */
  lemma GravityPositive(prods: seq<Entry<Site>>, cons: seq<Entry<Site>>, prior: seq<Entry<Pair>>, c: Cell)
    requires AllPositive(prods) && AllPositive(cons) && AllPositive(prior)
    requires Gravity(prods, cons, prior, c).Some?
    ensures Gravity(prods, cons, prior, c).value > 0.0
  {
    var a := Lookup(prods, Site(c.product, c.origin));
    var b := Lookup(cons, Site(c.product, c.destination));
    var w := Lookup(prior, Pair(c.origin, c.destination));
    LookupPositive(prods, Site(c.product, c.origin));
    LookupPositive(cons, Site(c.product, c.destination));
    LookupPositive(prior, Pair(c.origin, c.destination));
    MulPositive(a.value, b.value, w.value);
  }

  /** Every candidate cell: each product crossed with every ordered pair of regions below n. */
  function Candidates(products: seq<Product>, n: nat): (cells: set<Cell>)
    ensures forall c: Cell :: c in cells <==> c.product in products && c.origin < n && c.destination < n
  {
    var cells := set p, o: nat, d: nat | p in products && o < n && d < n :: Cell(o, d, p);
    forall c: Cell | c.product in products && c.origin < n && c.destination < n
      ensures c in cells
    {
      assert c == Cell(c.origin, c.destination, c.product);
    }
    cells
  }

  /**
   * The seed table as a value: the gravity value of every candidate cell
   * whose three operands exist.
   */
  function GravitySeeds(products: seq<Product>, n: nat, prods: seq<Entry<Site>>, cons: seq<Entry<Site>>,
                        prior: seq<Entry<Pair>>): map<Cell, real>
  {
    map c | c in Candidates(products, n) && Gravity(prods, cons, prior, c).Some? :: Gravity(prods, cons, prior, c).value
  }

  /** The cells the loops have visited: earlier products, then earlier pairs of the current one. */
  predicate Visited(products: seq<Product>, n: nat, i: nat, o: nat, d: nat, c: Cell)
    requires i < |products|
  {
    c.origin < n && c.destination < n &&
    (c.product in products[..i] ||
     (c.product == products[i] && (c.origin < o || (c.origin == o && c.destination < d))))
  }

  /**
   * Fills the seed table: for every product and every ordered region pair
   * (o, d) with o, d < n (diagonal included), in the order
   * `itertools.product` lists them, the gravity value when all three
   * operands exist; the pair is skipped otherwise.
   */
  method BuildSeeds(products: seq<Product>, n: nat, prods: seq<Entry<Site>>, cons: seq<Entry<Site>>,
                    prior: seq<Entry<Pair>>) returns (seeds: map<Cell, real>)
    ensures forall c :: c in seeds <==>
      c.product in products && c.origin < n && c.destination < n && Gravity(prods, cons, prior, c).Some?
    ensures forall c :: c in seeds ==> seeds[c] == Gravity(prods, cons, prior, c).value
    ensures seeds == GravitySeeds(products, n, prods, cons, prior)
  {
    seeds := map[];
    for i := 0 to |products|
      invariant forall c :: c in seeds <==>
        c.product in products[..i] && c.origin < n && c.destination < n && Gravity(prods, cons, prior, c).Some?
      invariant forall c :: c in seeds ==> seeds[c] == Gravity(prods, cons, prior, c).value
    {
      var p := products[i];
      for o := 0 to n
        invariant forall c :: c in seeds <==> Visited(products, n, i, o, 0, c) && Gravity(prods, cons, prior, c).Some?
        invariant forall c :: c in seeds ==> seeds[c] == Gravity(prods, cons, prior, c).value
      {
        for d := 0 to n
          invariant forall c :: c in seeds <==> Visited(products, n, i, o, d, c) && Gravity(prods, cons, prior, c).Some?
          invariant forall c :: c in seeds ==> seeds[c] == Gravity(prods, cons, prior, c).value
        {
          var a := Lookup(prods, Site(p, o));
          var b := Lookup(cons, Site(p, d));
          var w := Lookup(prior, Pair(o, d));
          if a.Some? && b.Some? && w.Some? {
            seeds := seeds[Cell(o, d, p) := a.value * b.value * w.value];
          }
        }
      }
      assert products[..i + 1] == products[..i] + [p];
    }
    assert products[..|products|] == products;
  }

  /** The (origin, product) row labels that carry at least one seed cell. */
  function Rows(seeds: map<Cell, real>): set<(Region, Product)>
  {
    set c | c in seeds.Keys :: (c.origin, c.product)
  }

  /** The destination column labels that carry at least one seed cell. */
  function Columns(seeds: map<Cell, real>): set<Region>
  {
    set c | c in seeds.Keys :: c.destination
  }

  /** The cell's row and its column both occur among the seeds. */
  predicate InRectangle(seeds: map<Cell, real>, c: Cell)
  {
    (c.origin, c.product) in Rows(seeds) && c.destination in Columns(seeds)
  }

  /** Every seeded row crossed with every seeded column. */
  function Rectangle(seeds: map<Cell, real>): (rect: set<Cell>)
    ensures forall c :: c in rect <==> InRectangle(seeds, c)
  {
    set row, d | row in Rows(seeds) && d in Columns(seeds) :: Cell(row.0, d, row.1)
  }

  /**
   * Unstack by destination, fill the holes with Epsilon, stack again: the
   * result covers every (origin, product) row that has a seed cell times
   * every destination that has a seed cell in any row, keeps the seeds and
   * puts Epsilon in every other cell; positive seeds give a positive block.
   */
  function Floor(seeds: map<Cell, real>): (floored: map<Cell, real>)
    ensures forall c :: c in floored <==> InRectangle(seeds, c)
    ensures forall c :: c in seeds ==> c in floored && floored[c] == seeds[c]
    ensures forall c :: c in floored && c !in seeds ==> floored[c] == Epsilon
  {
    map c | c in Rectangle(seeds) :: if c in seeds then seeds[c] else Epsilon
  }

  /** Flooring positive seeds gives a positive table. */
  lemma FloorPositive(seeds: map<Cell, real>)
    requires forall c :: c in seeds ==> seeds[c] > 0.0
    ensures forall c :: c in Floor(seeds) ==> Floor(seeds)[c] > 0.0
  {
    var floored := Floor(seeds);
    forall c | c in floored ensures floored[c] > 0.0 {
      if c !in seeds {
        assert floored[c] == Epsilon;
      }
    }
  }
}
