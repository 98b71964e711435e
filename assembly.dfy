/**
 * Result assembly (src/io.py:179-189): every product's fitted block is
 * labelled with its product, the blocks are concatenated, and the result
 * is group-summed by (product, origin, destination).
 */
module Assembly {
  import opened Series
  import opened Domain
  import opened Seeding

  /** One product's fitted block, as appended to the list of results. */
  datatype Block = Block(product: Product, cells: seq<Entry<Pair>>)

  /** The block with the product column added: cells keyed by (origin, destination, product). */
  function Label(b: Block): seq<Entry<Cell>>
  {
    seq(|b.cells|, i requires 0 <= i < |b.cells| =>
      Entry(Cell(b.cells[i].key.origin, b.cells[i].key.destination, b.product), b.cells[i].value))
  }

  /** pd.concat of the labelled blocks, in list order. */
  function Concat(blocks: seq<Block>): seq<Entry<Cell>>
  {
    if blocks == [] then []
    else Concat(blocks[..|blocks| - 1]) + Label(blocks[|blocks| - 1])
  }

  /** The estimated flow table: the concatenation group-summed by its full key. */
  function Assemble(blocks: seq<Block>): (ods: seq<Entry<Cell>>)
    ensures DistinctKeys(ods)
    ensures KeysOf(ods) == KeysOf(Concat(blocks))
  {
    GroupSum(Concat(blocks))
  }

  /**
   * The collection step as the code runs it: a fitted block with exactly
   * one cell is squeezed to a scalar, which concatenation rejects, and
   * concatenating no blocks at all fails too. `None` stands for the raise.
   */
  function Collect(blocks: seq<Block>): Option<seq<Entry<Cell>>>
  {
    if blocks == [] || exists k :: 0 <= k < |blocks| && |blocks[k].cells| == 1 then None
    else Some(Assemble(blocks))
  }

  /** The sum of the values at a pair over every block of a product. */
  function ProductSum(blocks: seq<Block>, p: Product, pair: Pair): real
  {
    if blocks == [] then 0.0
    else
      var b := blocks[|blocks| - 1];
      ProductSum(blocks[..|blocks| - 1], p, pair) + (if b.product == p then KeySum(b.cells, pair) else 0.0)
  }

  /** Labelling moves a block's sums to its own product and leaves every other product empty. */
  lemma {:induction false} LabelKeySum(cells: seq<Entry<Pair>>, p: Product, c: Cell)
    ensures KeySum(Label(Block(p, cells)), c) ==
      if c.product == p then KeySum(cells, Pair(c.origin, c.destination)) else 0.0
  {
    if cells != [] {
      var q := cells[..|cells| - 1];
      LabelKeySum(q, p, c);
      var l := Label(Block(p, cells));
      assert l[..|l| - 1] == Label(Block(p, q));
    }
  }

  /** The concatenation sums, at each key, the values of every block of that key's product. */
  lemma {:induction false} ConcatKeySum(blocks: seq<Block>, c: Cell)
    ensures KeySum(Concat(blocks), c) == ProductSum(blocks, c.product, Pair(c.origin, c.destination))
  {
    if blocks != [] {
      var b := blocks[|blocks| - 1];
      ConcatKeySum(blocks[..|blocks| - 1], c);
      KeySumAppend(Concat(blocks[..|blocks| - 1]), Label(b), c);
      LabelKeySum(b.cells, b.product, c);
      assert Label(b) == Label(Block(b.product, b.cells));
    }
  }

  /**
   * Each key of the table holds the sum, over every block of its product,
   * of that block's values at its (origin, destination); keys no block
   * carries are absent.
   */
  lemma AssembleLookup(blocks: seq<Block>, c: Cell)
    ensures Lookup(Assemble(blocks), c) ==
      if c in KeysOf(Concat(blocks)) then Some(ProductSum(blocks, c.product, Pair(c.origin, c.destination))) else None
  {
    LookupGroupSum(Concat(blocks), c);
    ConcatKeySum(blocks, c);
  }

  /** The products of the blocks are pairwise different. */
  predicate DistinctProducts(blocks: seq<Block>)
  {
    forall i, j :: 0 <= i < j < |blocks| ==> blocks[i].product != blocks[j].product
  }

  /** With one block per product, the product sum is that block's own sum. */
  lemma {:induction false} ProductSumSingle(blocks: seq<Block>, i: nat, pair: Pair)
    requires DistinctProducts(blocks) && i < |blocks|
    ensures ProductSum(blocks, blocks[i].product, pair) == KeySum(blocks[i].cells, pair)
  {
    var p := blocks[i].product;
    var q := blocks[..|blocks| - 1];
    if i == |blocks| - 1 {
      ProductSumAbsent(q, p, pair);
    } else {
      assert q[i] == blocks[i];
      ProductSumSingle(q, i, pair);
    }
  }

  /** No block of the product: nothing is summed. */
  lemma {:induction false} ProductSumAbsent(blocks: seq<Block>, p: Product, pair: Pair)
    requires forall j :: 0 <= j < |blocks| ==> blocks[j].product != p
    ensures ProductSum(blocks, p, pair) == 0.0
  {
    if blocks != [] {
      ProductSumAbsent(blocks[..|blocks| - 1], p, pair);
    }
  }

  /**
   * With one block per product, each block whose cells have distinct
   * keys appears unchanged in the table under its product.
   */
  lemma AssembleContainsBlocks(blocks: seq<Block>, i: nat, k: nat)
    requires DistinctProducts(blocks) && i < |blocks|
    requires DistinctKeys(blocks[i].cells) && k < |blocks[i].cells|
    ensures
      var e := blocks[i].cells[k];
      Lookup(Assemble(blocks), Cell(e.key.origin, e.key.destination, blocks[i].product)) == Some(e.value)
  {
    var b := blocks[i];
    var e := b.cells[k];
    var c := Cell(e.key.origin, e.key.destination, b.product);
    assert e.key == Pair(c.origin, c.destination);
    ConcatMember(blocks, i, k);
    AssembleLookup(blocks, c);
    ProductSumSingle(blocks, i, e.key);
    KeySumDistinct(b.cells, k);
  }

  /** Every labelled cell of every block is a key of the concatenation. */
  lemma {:induction false} ConcatMember(blocks: seq<Block>, i: nat, k: nat)
    requires i < |blocks| && k < |blocks[i].cells|
    ensures
      var e := blocks[i].cells[k];
      Cell(e.key.origin, e.key.destination, blocks[i].product) in KeysOf(Concat(blocks))
  {
    var e := blocks[i].cells[k];
    var c := Cell(e.key.origin, e.key.destination, blocks[i].product);
    var q := blocks[..|blocks| - 1];
    var l := Label(blocks[|blocks| - 1]);
    assert Concat(blocks) == Concat(q) + l;
    if i == |blocks| - 1 {
      assert Concat(blocks)[|Concat(q)| + k] == l[k];
    } else {
      assert q[i] == blocks[i];
      ConcatMember(q, i, k);
      var j :| 0 <= j < |Concat(q)| && Concat(q)[j].key == c;
      assert Concat(blocks)[j] == Concat(q)[j];
    }
  }

  /** Positive blocks give a positive table. */
  lemma AssemblePositive(blocks: seq<Block>)
    requires forall i :: 0 <= i < |blocks| ==> AllPositive(blocks[i].cells)
    ensures AllPositive(Assemble(blocks))
  {
    ConcatPositive(blocks);
    GroupSumPositive(Concat(blocks));
  }

  lemma {:induction false} ConcatPositive(blocks: seq<Block>)
    requires forall i :: 0 <= i < |blocks| ==> AllPositive(blocks[i].cells)
    ensures AllPositive(Concat(blocks))
  {
    if blocks != [] {
      var q := blocks[..|blocks| - 1];
      assert forall i :: 0 <= i < |q| ==> q[i] == blocks[i];
      ConcatPositive(q);
      var l := Label(blocks[|blocks| - 1]);
      var all := Concat(q) + l;
      forall j | 0 <= j < |all| ensures all[j].value > 0.0 {
        if j < |Concat(q)| {
          assert all[j] == Concat(q)[j];
        } else {
          assert all[j] == l[j - |Concat(q)|];
        }
      }
    }
  }
}
