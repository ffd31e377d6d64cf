/**
 * The price-level store of src/orderbook/orderBook.go. The source keeps each side
 * in a google/btree ordered by Bid.Less or Ask.Less; here each side is a sequence
 * strictly sorted by the same comparator, best level first, which is the order in
 * which the tree's Ascend visits it. A level is an Orders.Order whose quantity is
 * the aggregate resting at its price.
 *
 * The source stores `Order` values where the tree items embed a `*Order`
 * (orderBook.go lines 112, 120, 128, 136), which does not type-check as written;
 * the model follows the evident intent, one order record per price level.
 */
module Levels {
  import opened Wrappers
  import opened Orders

  datatype Side = Bids | Asks

  /** The comparator of each side's tree. */
  predicate Less(side: Side, a: Order, b: Order)
  {
    match side
    case Bids => BidLess(a, b)
    case Asks => AskLess(a, b)
  }

  /** The levels are in strict comparator order, which also rules out two levels at one price. */
  ghost predicate Sorted(side: Side, levels: seq<Order>)
  {
    forall i, j :: 0 <= i < j < |levels| ==> Less(side, levels[i], levels[j])
  }

  /** Every resting level holds a positive aggregate quantity. */
  ghost predicate Positive(levels: seq<Order>)
  {
    forall i :: 0 <= i < |levels| ==> levels[i].quantity > 0
  }

  /** The total quantity resting on one side. */
  function Total(levels: seq<Order>): int
  {
    if levels == [] then 0 else levels[0].quantity + Total(levels[1..])
  }

  /** Bids are sorted highest price first, asks lowest price first, and neither side repeats a price. */
  lemma SortedMeansPriceOrder(side: Side, levels: seq<Order>)
    requires Sorted(side, levels)
    ensures side == Bids ==> forall i, j :: 0 <= i < j < |levels| ==> levels[i].price > levels[j].price
    ensures side == Asks ==> forall i, j :: 0 <= i < j < |levels| ==> levels[i].price < levels[j].price
    ensures forall i, j :: 0 <= i < |levels| && 0 <= j < |levels| && i != j ==> levels[i].price != levels[j].price
  {
    forall i, j | 0 <= i < |levels| && 0 <= j < |levels| && i != j
      ensures levels[i].price != levels[j].price
    {
      if i < j {
        assert Less(side, levels[i], levels[j]);
      } else {
        assert Less(side, levels[j], levels[i]);
      }
    }
  }

  /** Whether the comparator puts one level before another depends on the prices alone. */
  lemma SamePricesKeepSorted(side: Side, a: seq<Order>, b: seq<Order>)
    requires Sorted(side, a) && |a| == |b|
    requires forall k :: 0 <= k < |a| ==> a[k].price == b[k].price
    ensures Sorted(side, b)
  {
    forall i, j | 0 <= i < j < |b| ensures Less(side, b[i], b[j]) {
      assert Less(side, a[i], a[j]);
    }
  }

  /** Dropping the best levels of a sorted side leaves it sorted. */
  lemma SortedSuffix(side: Side, levels: seq<Order>, d: nat)
    requires Sorted(side, levels) && d <= |levels|
    ensures Sorted(side, levels[d..])
  {
    forall i, j | 0 <= i < j < |levels[d..]| ensures Less(side, levels[d..][i], levels[d..][j]) {
      assert levels[d..][i] == levels[i + d] && levels[d..][j] == levels[j + d];
    }
  }

  /** Tree.Get with a key that carries only a price: the position of the level at `price`, if any. */
  function Find(levels: seq<Order>, price: real): (r: Option<nat>)
    ensures r.Some? ==> r.value < |levels| && levels[r.value].price == price
    ensures r.None? ==> forall i :: 0 <= i < |levels| ==> levels[i].price != price
  {
    if levels == [] then None
    else if levels[0].price == price then Some(0)
    else match Find(levels[1..], price)
      case Some(i) => Some(i + 1)
      case None => None
  }

  /** Tree.ReplaceOrInsert for a price that is not yet present: `lvl` goes in at its place in comparator order. */
  function Insert(side: Side, levels: seq<Order>, lvl: Order): (r: seq<Order>)
    ensures |r| == |levels| + 1
    ensures multiset(r) == multiset(levels) + multiset{lvl}
    ensures r[0] == lvl || (levels != [] && r[0] == levels[0])
  {
    if levels == [] || Less(side, lvl, levels[0]) then [lvl] + levels
    else
      assert levels == [levels[0]] + levels[1..];
      [levels[0]] + Insert(side, levels[1..], lvl)
  }

  /** Inserting a level adds exactly its quantity to the side's total. */
  lemma {:induction false} InsertTotal(side: Side, levels: seq<Order>, lvl: Order)
    ensures Total(Insert(side, levels, lvl)) == Total(levels) + lvl.quantity
  {
    if levels == [] || Less(side, lvl, levels[0]) {
      assert ([lvl] + levels)[1..] == levels;
    } else {
      InsertTotal(side, levels[1..], lvl);
      assert ([levels[0]] + Insert(side, levels[1..], lvl))[1..] == Insert(side, levels[1..], lvl);
    }
  }

  /** A level that comes before every level of a sorted side can be put in front of it. */
  lemma SortedCons(side: Side, x: Order, levels: seq<Order>)
    requires Sorted(side, levels)
    requires forall k :: 0 <= k < |levels| ==> Less(side, x, levels[k])
    ensures Sorted(side, [x] + levels)
  {
    var r := [x] + levels;
    forall i, j | 0 <= i < j < |r| ensures Less(side, r[i], r[j]) {
      assert r[j] == levels[j - 1];
      if i > 0 {
        assert r[i] == levels[i - 1];
      }
    }
  }

  /** Inserting a level at a price the side does not hold keeps the side strictly sorted. */
  lemma {:induction false} InsertSorted(side: Side, levels: seq<Order>, lvl: Order)
    requires Sorted(side, levels)
    requires forall i :: 0 <= i < |levels| ==> levels[i].price != lvl.price
    ensures Sorted(side, Insert(side, levels, lvl))
  {
    if levels == [] || Less(side, lvl, levels[0]) {
      forall k | 0 <= k < |levels| ensures Less(side, lvl, levels[k]) {
        if k > 0 {
          assert Less(side, levels[0], levels[k]);
        }
      }
      SortedCons(side, lvl, levels);
    } else {
      var rest := Insert(side, levels[1..], lvl);
      SortedSuffix(side, levels, 1);
      InsertSorted(side, levels[1..], lvl);
      // The head of `levels` comes before `lvl`: the prices differ and `lvl` is not less.
      assert Less(side, levels[0], lvl);
      forall k | 0 <= k < |rest| ensures Less(side, levels[0], rest[k]) {
        assert rest[k] in multiset(rest);
        if rest[k] != lvl {
          assert rest[k] in multiset(levels[1..]);
          var m :| 0 <= m < |levels[1..]| && levels[1..][m] == rest[k];
          assert Less(side, levels[0], levels[m + 1]);
        }
      }
      SortedCons(side, levels[0], rest);
    }
  }

  /** Replacing one level changes the side's total by the difference of the two quantities. */
  lemma {:induction false} TotalUpdate(levels: seq<Order>, i: nat, x: Order)
    requires i < |levels|
    ensures Total(levels[i := x]) == Total(levels) - levels[i].quantity + x.quantity
  {
    if i > 0 {
      TotalUpdate(levels[1..], i - 1, x);
      assert levels[i := x][1..] == levels[1..][i - 1 := x];
    }
  }

  /**
   * addBid / addAsk: a level at the order's price grows by the order's quantity;
   * otherwise the order becomes a new level. The surviving level keeps its first
   * owner: only its quantity changes.
   */
  function Upsert(side: Side, levels: seq<Order>, lvl: Order): seq<Order>
  {
    match Find(levels, lvl.price)
    case Some(i) => levels[i := levels[i].(quantity := levels[i].quantity + lvl.quantity)]
    case None => Insert(side, levels, lvl)
  }

  /** Adding at a price already on the side raises that level's quantity and leaves every other level as it was. */
  lemma UpsertExisting(side: Side, levels: seq<Order>, lvl: Order, i: nat)
    requires Sorted(side, levels)
    requires i < |levels| && levels[i].price == lvl.price
    ensures Upsert(side, levels, lvl) == levels[i := levels[i].(quantity := levels[i].quantity + lvl.quantity)]
  {
    SortedMeansPriceOrder(side, levels);
    var found := Find(levels, lvl.price);
    assert found.Some? && found.value == i;
  }

  /** Adding at a new price inserts exactly one level, the order itself, and keeps every other level. */
  lemma UpsertNew(side: Side, levels: seq<Order>, lvl: Order)
    requires forall i :: 0 <= i < |levels| ==> levels[i].price != lvl.price
    ensures |Upsert(side, levels, lvl)| == |levels| + 1
    ensures multiset(Upsert(side, levels, lvl)) == multiset(levels) + multiset{lvl}
  {
  }

  /** Adding an order raises the side's total by exactly the order's quantity. */
  lemma UpsertTotal(side: Side, levels: seq<Order>, lvl: Order)
    ensures Total(Upsert(side, levels, lvl)) == Total(levels) + lvl.quantity
  {
    match Find(levels, lvl.price)
    case Some(i) =>
      TotalUpdate(levels, i, levels[i].(quantity := levels[i].quantity + lvl.quantity));
    case None =>
      InsertTotal(side, levels, lvl);
  }

  /** Adding an order keeps a side strictly sorted, one level per price. */
  lemma UpsertSorted(side: Side, levels: seq<Order>, lvl: Order)
    requires Sorted(side, levels)
    ensures Sorted(side, Upsert(side, levels, lvl))
  {
    var r := Upsert(side, levels, lvl);
    match Find(levels, lvl.price)
    case Some(i) =>
      SamePricesKeepSorted(side, levels, r);
    case None =>
      InsertSorted(side, levels, lvl);
  }

  /** Adding a positive quantity keeps every level of the side positive. */
  lemma UpsertPositive(side: Side, levels: seq<Order>, lvl: Order)
    requires Positive(levels) && lvl.quantity > 0
    ensures Positive(Upsert(side, levels, lvl))
  {
    var r := Upsert(side, levels, lvl);
    match Find(levels, lvl.price)
    case Some(i) =>
    case None =>
      forall k | 0 <= k < |r| ensures r[k].quantity > 0 {
        assert r[k] in multiset(r);
        if r[k] != lvl {
          assert r[k] in multiset(levels);
          var m :| 0 <= m < |levels| && levels[m] == r[k];
        }
      }
  }

  /** The quantity resting at `price` on a side, 0 when there is no level there. */
  function QuantityAt(levels: seq<Order>, price: real): int
  {
    match Find(levels, price)
    case Some(i) => levels[i].quantity
    case None => 0
  }

  /** On a sorted side the level found at a price is the only one there. */
  lemma QuantityAtIndex(side: Side, levels: seq<Order>, i: nat)
    requires Sorted(side, levels) && i < |levels|
    ensures QuantityAt(levels, levels[i].price) == levels[i].quantity
  {
    SortedMeansPriceOrder(side, levels);
  }

  /** Raising the quantity of the level at index `i` changes the quantity at its price only. */
  lemma UpdateQuantityAt(side: Side, levels: seq<Order>, i: nat, q: int, price: real)
    requires Sorted(side, levels) && i < |levels|
    ensures var r := levels[i := levels[i].(quantity := q)];
            QuantityAt(r, price) == if price == levels[i].price then q else QuantityAt(levels, price)
  {
    var r := levels[i := levels[i].(quantity := q)];
    SamePricesKeepSorted(side, levels, r);
    if price == levels[i].price {
      QuantityAtIndex(side, r, i);
    } else {
      match Find(levels, price)
      case Some(k) =>
        QuantityAtIndex(side, r, k);
        QuantityAtIndex(side, levels, k);
      case None =>
        assert forall j :: 0 <= j < |r| ==> r[j].price == levels[j].price;
    }
  }

  /** Inserting a level at a new price puts its quantity at that price and changes no other price. */
  lemma InsertQuantityAt(side: Side, levels: seq<Order>, lvl: Order, price: real)
    requires Sorted(side, levels)
    requires forall i :: 0 <= i < |levels| ==> levels[i].price != lvl.price
    ensures QuantityAt(Insert(side, levels, lvl), price)
         == if price == lvl.price then lvl.quantity else QuantityAt(levels, price)
  {
    var r := Insert(side, levels, lvl);
    InsertSorted(side, levels, lvl);
    if price == lvl.price {
      assert lvl in multiset(r);
      var j :| 0 <= j < |r| && r[j] == lvl;
      QuantityAtIndex(side, r, j);
    } else {
      match Find(levels, price)
      case Some(k) =>
        assert levels[k] in multiset(r);
        var j :| 0 <= j < |r| && r[j] == levels[k];
        QuantityAtIndex(side, r, j);
        QuantityAtIndex(side, levels, k);
      case None =>
        forall j | 0 <= j < |r| ensures r[j].price != price {
          assert r[j] in multiset(r);
          if r[j] != lvl {
            assert r[j] in multiset(levels);
            var m :| 0 <= m < |levels| && levels[m] == r[j];
          }
        }
    }
  }

  /**
   * addBid / addAsk seen price by price: the quantity at the order's price grows by the
   * order's quantity, whether or not a level was there, and every other price keeps its quantity.
   */
  lemma UpsertQuantityAt(side: Side, levels: seq<Order>, lvl: Order, price: real)
    requires Sorted(side, levels)
    ensures QuantityAt(Upsert(side, levels, lvl), price)
         == QuantityAt(levels, price) + (if price == lvl.price then lvl.quantity else 0)
  {
    match Find(levels, lvl.price)
    case Some(i) =>
      UpdateQuantityAt(side, levels, i, levels[i].quantity + lvl.quantity, price);
      if price == lvl.price {
        QuantityAtIndex(side, levels, i);
      }
    case None =>
      InsertQuantityAt(side, levels, lvl, price);
  }

  /** After adding, the best level is either the added order's price or the previous best price. */
  lemma UpsertBest(side: Side, levels: seq<Order>, lvl: Order)
    ensures Upsert(side, levels, lvl) != []
    ensures Upsert(side, levels, lvl)[0].price == lvl.price
         || (levels != [] && Upsert(side, levels, lvl)[0].price == levels[0].price)
  {
  }
}
