/**
 * Production and consumption marginals: the positive filter on the raw
 * records (src/io.py:273), the totals per (product, region) (src/io.py:55-56),
 * the inner join of the two tables and the per-product rescaling of
 * production to consumption parity (src/io.py:59-79, src/utils.py:1-21).
 */
module Marginals {
  import opened Series
  import opened Domain

  /**
   * One entry of the series a production or consumption file is read
   * into: the quantity summed per (date, region, product group, product).
   * The date and the group labels are not kept, since the totals per
   * (product, region) sum over them; the positive filter applies to these
   * entries, before that total.
   */
  datatype Record = Record(product: Product, region: Region, quantity: real)

  /** Keeps the records whose quantity is strictly positive, in order. */
  function PositiveRecords(records: seq<Record>): (kept: seq<Record>)
    ensures forall i :: 0 <= i < |kept| ==> kept[i].quantity > 0.0 && kept[i] in records
  {
    if records == [] then []
    else
      var init := records[..|records| - 1];
      var r := records[|records| - 1];
      assert forall i :: 0 <= i < |init| ==> init[i] == records[i];
      if r.quantity > 0.0 then PositiveRecords(init) + [r] else PositiveRecords(init)
  }

  /** No record with a positive quantity is dropped. */
  lemma {:induction false} PositiveRecordsComplete(records: seq<Record>, i: nat)
    requires i < |records| && records[i].quantity > 0.0
    ensures records[i] in PositiveRecords(records)
  {
    if i < |records| - 1 {
      assert records[..|records| - 1][i] == records[i];
      PositiveRecordsComplete(records[..|records| - 1], i);
    }
  }

  /** The records as a series labelled by (product, region). */
  function Quantities(records: seq<Record>): seq<Entry<Site>>
  {
    seq(|records|, i requires 0 <= i < |records| =>
      Entry(Site(records[i].product, records[i].region), records[i].quantity))
  }

  /** Totals per (product, region) label. */
  function Totals(records: seq<Record>): seq<Entry<Site>>
  {
    GroupSum(Quantities(records))
  }

  /** Totals of positive records are themselves positive. */
  lemma {:induction false} TotalsPositive(records: seq<Record>)
    requires forall i :: 0 <= i < |records| ==> records[i].quantity > 0.0
    ensures AllPositive(Totals(records))
  {
    GroupSumPositive(Quantities(records));
  }

  /** A row of the inner join: the production and the consumption total of one (product, region). */
  datatype JoinedRow = JoinedRow(site: Site, prod: real, cons: real)

  function Sites(rows: seq<JoinedRow>): set<Site>
  {
    set i | 0 <= i < |rows| :: rows[i].site
  }

  predicate DistinctSites(rows: seq<JoinedRow>)
  {
    forall i, j :: 0 <= i < j < |rows| ==> rows[i].site != rows[j].site
  }

  /**
   * Inner join on the (product, region) label, in the production table's
   * order: only labels present in both tables survive.
   */
  function InnerJoin(prods: seq<Entry<Site>>, cons: seq<Entry<Site>>): (rows: seq<JoinedRow>)
    ensures forall i :: 0 <= i < |rows| ==>
      Entry(rows[i].site, rows[i].prod) in prods && Lookup(cons, rows[i].site) == Some(rows[i].cons)
  {
    if prods == [] then []
    else
      var init := prods[..|prods| - 1];
      var e := prods[|prods| - 1];
      assert forall i :: 0 <= i < |init| ==> init[i] == prods[i];
      match Lookup(cons, e.key)
      case Some(c) => InnerJoin(init, cons) + [JoinedRow(e.key, e.value, c)]
      case None => InnerJoin(init, cons)
  }

  /** The joined labels are exactly the labels of both tables. */
  lemma {:induction false} InnerJoinSites(prods: seq<Entry<Site>>, cons: seq<Entry<Site>>)
    ensures Sites(InnerJoin(prods, cons)) == KeysOf(prods) * KeysOf(cons)
    ensures DistinctKeys(prods) ==> DistinctSites(InnerJoin(prods, cons))
  {
    if prods != [] {
      var init := prods[..|prods| - 1];
      var e := prods[|prods| - 1];
      var rest := InnerJoin(init, cons);
      InnerJoinSites(init, cons);
      KeysOfSnoc(prods);
      if DistinctKeys(prods) {
        DistinctKeysInit(prods);
      }
      if e.key in KeysOf(cons) {
        var row := JoinedRow(e.key, e.value, Lookup(cons, e.key).value);
        assert InnerJoin(prods, cons) == rest + [row];
        SitesSnoc(rest, row);
      } else {
        assert InnerJoin(prods, cons) == rest;
      }
    }
  }

  lemma SitesSnoc(rows: seq<JoinedRow>, row: JoinedRow)
    ensures Sites(rows + [row]) == Sites(rows) + {row.site}
    ensures DistinctSites(rows) && row.site !in Sites(rows) ==> DistinctSites(rows + [row])
  {
    var all := rows + [row];
    assert all[|rows|] == row;
    forall x | x in Sites(all) ensures x in Sites(rows) + {row.site} {
      var i :| 0 <= i < |all| && all[i].site == x;
      if i < |rows| { assert rows[i] == all[i]; }
    }
    forall x | x in Sites(rows) ensures x in Sites(all) {
      var i :| 0 <= i < |rows| && rows[i].site == x;
      assert all[i] == rows[i];
    }
  }

  /** Sum of the production column over the rows of product p. */
  function ProdTotal(rows: seq<JoinedRow>, p: Product): real
  {
    if rows == [] then 0.0
    else
      var last := rows[|rows| - 1];
      ProdTotal(rows[..|rows| - 1], p) + (if last.site.product == p then last.prod else 0.0)
  }

  /** Sum of the consumption column over the rows of product p. */
  function ConsTotal(rows: seq<JoinedRow>, p: Product): real
  {
    if rows == [] then 0.0
    else
      var last := rows[|rows| - 1];
      ConsTotal(rows[..|rows| - 1], p) + (if last.site.product == p then last.cons else 0.0)
  }

  predicate ProdPositive(rows: seq<JoinedRow>)
  {
    forall i :: 0 <= i < |rows| ==> rows[i].prod > 0.0
  }

  predicate ConsPositive(rows: seq<JoinedRow>)
  {
    forall i :: 0 <= i < |rows| ==> rows[i].cons > 0.0
  }

  lemma {:induction false} ProdTotalPositive(rows: seq<JoinedRow>, i: nat)
    requires ProdPositive(rows) && i < |rows|
    ensures ProdTotal(rows, rows[i].site.product) > 0.0
  {
    var init := rows[..|rows| - 1];
    if i < |rows| - 1 {
      assert init[i] == rows[i];
      ProdTotalPositive(init, i);
    } else {
      ProdTotalNonNegative(init, rows[i].site.product);
    }
  }

  lemma {:induction false} ProdTotalNonNegative(rows: seq<JoinedRow>, p: Product)
    requires ProdPositive(rows)
    ensures ProdTotal(rows, p) >= 0.0
  {
    if rows != [] {
      ProdTotalNonNegative(rows[..|rows| - 1], p);
    }
  }

  /** Both totals of a product that has no row are zero. */
  lemma {:induction false} TotalsOfAbsentProduct(rows: seq<JoinedRow>, p: Product)
    requires forall i :: 0 <= i < |rows| ==> rows[i].site.product != p
    ensures ProdTotal(rows, p) == 0.0 && ConsTotal(rows, p) == 0.0
  {
    if rows != [] {
      TotalsOfAbsentProduct(rows[..|rows| - 1], p);
    }
  }

  /** A production value multiplied by a factor. */
  function Scale(v: real, factor: real): real
  {
    v * factor
  }

  /** Row i after normalisation: production times consumption total over production total of its product. */
  function NormalisedRow(rows: seq<JoinedRow>, i: nat): JoinedRow
    requires ProdPositive(rows) && i < |rows|
  {
    var p := rows[i].site.product;
    ProdTotalPositive(rows, i);
    rows[i].(prod := Scale(rows[i].prod, ConsTotal(rows, p) / ProdTotal(rows, p)))
  }

  /** The joined table after the per-product parity rescaling. */
  function Normalised(rows: seq<JoinedRow>): seq<JoinedRow>
    requires ProdPositive(rows)
  {
    seq(|rows|, i requires 0 <= i < |rows| => NormalisedRow(rows, i))
  }

  /** Scaling the production of product p's rows by c scales its production total by c. */
  lemma {:induction false} ScaledTotals(a: seq<JoinedRow>, b: seq<JoinedRow>, p: Product, c: real)
    requires |a| == |b|
    requires forall i :: 0 <= i < |a| ==> b[i].site == a[i].site && b[i].cons == a[i].cons
    requires forall i :: 0 <= i < |a| && a[i].site.product == p ==> b[i].prod == Scale(a[i].prod, c)
    ensures ProdTotal(b, p) == Scale(ProdTotal(a, p), c)
    ensures ConsTotal(b, p) == ConsTotal(a, p)
  {
    if a != [] {
      var n := |a| - 1;
      var a0, b0 := a[..n], b[..n];
      assert forall i :: 0 <= i < n ==> a0[i] == a[i] && b0[i] == b[i];
      ScaledTotals(a0, b0, p, c);
      var x, y := ProdTotal(a0, p), ProdTotal(b0, p);
      if a[n].site.product == p {
        assert ProdTotal(a, p) == x + a[n].prod;
        assert ProdTotal(b, p) == y + b[n].prod;
        Distributes(x, a[n].prod, c);
      } else {
        assert ProdTotal(a, p) == x;
        assert ProdTotal(b, p) == y;
      }
    }
  }

  lemma Distributes(x: real, y: real, c: real)
    ensures Scale(x, c) + Scale(y, c) == Scale(x + y, c)
  {
  }

  /** Two tables that agree on every row of product p have the same totals for p. */
  lemma {:induction false} GroupUnchanged(a: seq<JoinedRow>, b: seq<JoinedRow>, p: Product)
    requires |a| == |b|
    requires forall i :: 0 <= i < |a| ==> b[i].site == a[i].site
    requires forall i :: 0 <= i < |a| && a[i].site.product == p ==> b[i] == a[i]
    ensures ProdTotal(b, p) == ProdTotal(a, p) && ConsTotal(b, p) == ConsTotal(a, p)
  {
    if a != [] {
      var n := |a| - 1;
      var a0, b0 := a[..n], b[..n];
      assert forall i :: 0 <= i < n ==> a0[i] == a[i] && b0[i] == b[i];
      GroupUnchanged(a0, b0, p);
    }
  }

  lemma DivCancel(x: real, y: real)
    requires y != 0.0
    ensures Scale(y, x / y) == x
  {
  }

  /**
   * After normalisation every product's production total equals its
   * consumption total, and the consumption totals are those of the join.
   */
  lemma {:induction false} ParityReached(rows: seq<JoinedRow>, p: Product)
    requires ProdPositive(rows)
    ensures ProdTotal(Normalised(rows), p) == ConsTotal(rows, p)
    ensures ConsTotal(Normalised(rows), p) == ConsTotal(rows, p)
  {
    var r := Normalised(rows);
    if i :| 0 <= i < |rows| && rows[i].site.product == p {
      ProdTotalPositive(rows, i);
      var pt, ct := ProdTotal(rows, p), ConsTotal(rows, p);
      ScaledTotals(rows, r, p, ct / pt);
      DivCancel(ct, pt);
    } else {
      TotalsOfAbsentProduct(rows, p);
      TotalsOfAbsentProduct(r, p);
    }
  }

  /** The joined rows of two positive tables are positive in both columns. */
  lemma {:induction false} InnerJoinPositive(prods: seq<Entry<Site>>, cons: seq<Entry<Site>>)
    requires AllPositive(prods) && AllPositive(cons)
    ensures ProdPositive(InnerJoin(prods, cons)) && ConsPositive(InnerJoin(prods, cons))
  {
    var rows := InnerJoin(prods, cons);
    forall i | 0 <= i < |rows| ensures rows[i].prod > 0.0 && rows[i].cons > 0.0 {
      assert Entry(rows[i].site, rows[i].prod) in prods;
      LookupPositive(cons, rows[i].site);
    }
  }

  /** Production and consumption totals of product p's group in the current table. */
  method GroupTotals(rows: array<JoinedRow>, p: Product) returns (prodSum: real, consSum: real)
    ensures prodSum == ProdTotal(rows[..], p) && consSum == ConsTotal(rows[..], p)
  {
    prodSum, consSum := 0.0, 0.0;
    for j := 0 to rows.Length
      invariant prodSum == ProdTotal(rows[..j], p) && consSum == ConsTotal(rows[..j], p)
    {
      assert rows[..j + 1][..j] == rows[..j];
      if rows[j].site.product == p {
        prodSum := prodSum + rows[j].prod;
        consSum := consSum + rows[j].cons;
      }
    }
    assert rows[..rows.Length] == rows[..];
  }

  /** In-place `*=` on the production column of product p's group. */
  method ScaleGroup(rows: array<JoinedRow>, p: Product, factor: real)
    modifies rows
    ensures forall k :: 0 <= k < rows.Length ==>
      rows[k] == if old(rows[k]).site.product == p then old(rows[k]).(prod := Scale(old(rows[k]).prod, factor)) else old(rows[k])
  {
    for j := 0 to rows.Length
      invariant forall k :: 0 <= k < rows.Length ==>
        rows[k] == if k < j && old(rows[k]).site.product == p
                   then old(rows[k]).(prod := Scale(old(rows[k]).prod, factor)) else old(rows[k])
    {
      if rows[j].site.product == p {
        rows[j] := rows[j].(prod := Scale(rows[j].prod, factor));
      }
    }
  }

  /**
   * The rescaling, one product group at a time: the group's production
   * column is multiplied by its consumption total over its production total.
   */
  method NormaliseParity(rows: array<JoinedRow>)
    requires ProdPositive(rows[..])
    modifies rows
    ensures rows[..] == Normalised(old(rows[..]))
  {
    ghost var orig := rows[..];
    var done: set<Product> := {};
    var i := 0;
    while i < rows.Length
      invariant 0 <= i <= rows.Length
      invariant forall j :: 0 <= j < i ==> orig[j].site.product in done
      invariant forall j :: 0 <= j < rows.Length ==>
        rows[j] == if orig[j].site.product in done then NormalisedRow(orig, j) else orig[j]
    {
      var p := rows[i].site.product;
      if p !in done {
        var prodSum, consSum := GroupTotals(rows, p);
        GroupUnchanged(orig, rows[..], p);
        ProdTotalPositive(orig, i);
        var factor := consSum / prodSum;
        assert factor == ConsTotal(orig, p) / ProdTotal(orig, p);
        ghost var before := rows[..];
        ScaleGroup(rows, p, factor);
        forall j | 0 <= j < rows.Length
          ensures rows[j] == if orig[j].site.product in done + {p} then NormalisedRow(orig, j) else orig[j]
        {
          if orig[j].site.product == p {
            assert before[j] == orig[j];
          }
        }
        done := done + {p};
      }
      i := i + 1;
    }
  }

  function ProdEntries(rows: seq<JoinedRow>): seq<Entry<Site>>
  {
    seq(|rows|, i requires 0 <= i < |rows| => Entry(rows[i].site, rows[i].prod))
  }

  function ConsEntries(rows: seq<JoinedRow>): seq<Entry<Site>>
  {
    seq(|rows|, i requires 0 <= i < |rows| => Entry(rows[i].site, rows[i].cons))
  }

  /** The production marginal read back from the joined table, per (product, region). */
  function ProductionMarginal(rows: seq<JoinedRow>): seq<Entry<Site>>
  {
    GroupSum(ProdEntries(rows))
  }

  /** The consumption marginal read back from the joined table, per (product, region). */
  function ConsumptionMarginal(rows: seq<JoinedRow>): seq<Entry<Site>>
  {
    GroupSum(ConsEntries(rows))
  }

  /**
   * Reading the marginals back from a joined table with distinct labels
   * returns each row's own production and consumption value.
   */
  lemma {:induction false} ReadBack(rows: seq<JoinedRow>, i: nat)
    requires DistinctSites(rows) && i < |rows|
    ensures Lookup(ProductionMarginal(rows), rows[i].site) == Some(rows[i].prod)
    ensures Lookup(ConsumptionMarginal(rows), rows[i].site) == Some(rows[i].cons)
  {
    var ps, cs := ProdEntries(rows), ConsEntries(rows);
    assert ps[i].key == rows[i].site && cs[i].key == rows[i].site;
    assert rows[i].site in KeysOf(ps) && rows[i].site in KeysOf(cs);
    LookupGroupSum(ps, rows[i].site);
    LookupGroupSum(cs, rows[i].site);
    KeySumDistinct(ps, i);
    KeySumDistinct(cs, i);
  }

  /** The normalisation leaves the consumption marginal exactly as it was. */
  lemma ConsumptionUnchanged(rows: seq<JoinedRow>)
    requires ProdPositive(rows)
    ensures ConsumptionMarginal(Normalised(rows)) == ConsumptionMarginal(rows)
  {
    assert ConsEntries(Normalised(rows)) == ConsEntries(rows);
  }

  /** Both read-back marginals are positive when the joined table was. */
  lemma {:induction false} NormalisedMarginalsPositive(rows: seq<JoinedRow>)
    requires ProdPositive(rows) && ConsPositive(rows)
    ensures AllPositive(ProductionMarginal(Normalised(rows)))
    ensures AllPositive(ConsumptionMarginal(Normalised(rows)))
  {
    var r := Normalised(rows);
    forall i | 0 <= i < |rows| ensures r[i].prod > 0.0 {
      ProdTotalPositive(rows, i);
      ConsTotalPositive(rows, i);
      var p := rows[i].site.product;
      PositiveRatio(rows[i].prod, ConsTotal(rows, p), ProdTotal(rows, p));
    }
    GroupSumPositive(ProdEntries(r));
    GroupSumPositive(ConsEntries(r));
  }

  lemma PositiveRatio(x: real, c: real, t: real)
    requires x > 0.0 && c > 0.0 && t > 0.0
    ensures x * (c / t) > 0.0
  {
  }

  lemma {:induction false} ConsTotalPositive(rows: seq<JoinedRow>, i: nat)
    requires ConsPositive(rows) && i < |rows|
    ensures ConsTotal(rows, rows[i].site.product) > 0.0
  {
    var init := rows[..|rows| - 1];
    if i < |rows| - 1 {
      assert init[i] == rows[i];
      ConsTotalPositive(init, i);
    } else {
      ConsTotalNonNegative(init, rows[i].site.product);
    }
  }

  lemma {:induction false} ConsTotalNonNegative(rows: seq<JoinedRow>, p: Product)
    requires ConsPositive(rows)
    ensures ConsTotal(rows, p) >= 0.0
  {
    if rows != [] {
      ConsTotalNonNegative(rows[..|rows| - 1], p);
    }
  }
}
