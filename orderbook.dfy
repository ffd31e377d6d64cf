/**
 * Model of the OrderBook type of src/orderbook/orderBook.go. The two btrees become two
 * sequence fields, best level first; the methods reassign them step by step as the
 * source's ReplaceOrInsert and Delete calls do. The incoming order, which the source
 * updates through a pointer, is returned as `rest` with its quantity updated.
 */
module Orderbook {
  import opened Orders
  import opened Levels
  import opened Matching

  class OrderBook {
    var bids: seq<Order>
    var asks: seq<Order>

    /** Both sides sorted by their comparators, one level per price, every level positive. */
    ghost predicate Valid()
      reads this
    {
      WellFormed(BookSnapshot(bids, asks))
    }

    /** NewOrderBook: two empty sides. */
    constructor ()
      ensures Valid() && bids == [] && asks == []
    {
      bids := [];
      asks := [];
    }

    /** addBid: grow the level at the order's price, or add a new level without user or ticker. */
    method AddBid(order: Order)
      requires Valid() && order.quantity > 0
      modifies this
      ensures Valid()
      ensures bids == Upsert(Bids, old(bids), BidEntry(order)) && asks == old(asks)
    {
      var existing := Find(bids, order.price);
      if existing.Some? {
        var i := existing.value;
        bids := bids[i := bids[i].(quantity := bids[i].quantity + order.quantity)];
      } else {
        bids := Insert(Bids, bids, BidEntry(order));
      }
      UpsertSorted(Bids, old(bids), BidEntry(order));
      UpsertPositive(Bids, old(bids), BidEntry(order));
    }

    /** addAsk: grow the level at the order's price, or add the whole order as a new level. */
    method AddAsk(order: Order)
      requires Valid() && order.quantity > 0
      modifies this
      ensures Valid()
      ensures asks == Upsert(Asks, old(asks), order) && bids == old(bids)
    {
      var existing := Find(asks, order.price);
      if existing.Some? {
        var i := existing.value;
        asks := asks[i := asks[i].(quantity := asks[i].quantity + order.quantity)];
      } else {
        asks := Insert(Asks, asks, order);
      }
      UpsertSorted(Asks, old(asks), order);
      UpsertPositive(Asks, old(asks), order);
    }

    /** fillBid: match a bid against the asks, best first, and rest what is left as a bid. */
    method FillBid(newBid: Order) returns (rest: Order)
      requires Valid()
      modifies this
      ensures Valid()
      ensures Fill(BookSnapshot(bids, asks), rest) == FillBidResult(old(BookSnapshot(bids, asks)), newBid)
    {
      ghost var swept := Sweep(Asks, asks, newBid.price, newBid.quantity);
      SweepKeepsWellFormed(Asks, asks, newBid.price, newBid.quantity);
      rest := newBid;
      while asks != [] && !(rest.price < asks[0].price)
        invariant bids == old(bids)
        invariant rest == newBid.(quantity := rest.quantity)
        invariant Sweep(Asks, asks, newBid.price, rest.quantity) == swept
        decreases |asks|
      {
        var currAsk := asks[0];
        if currAsk.quantity > rest.quantity {
          asks := [currAsk.(quantity := currAsk.quantity - rest.quantity)] + asks[1..];
          rest := rest.(quantity := 0);
          break;
        }
        rest := rest.(quantity := rest.quantity - currAsk.quantity);
        asks := asks[1..];
      }
      assert asks == swept.levels && rest.quantity == swept.remaining;
      if rest.quantity > 0 {
        AddBid(rest);
      }
    }

    /** fillAsk: match an ask against the bids, best first, and rest what is left as an ask. */
    method FillAsk(newAsk: Order) returns (rest: Order)
      requires Valid()
      modifies this
      ensures Valid()
      ensures Fill(BookSnapshot(bids, asks), rest) == FillAskResult(old(BookSnapshot(bids, asks)), newAsk)
    {
      ghost var swept := Sweep(Bids, bids, newAsk.price, newAsk.quantity);
      SweepKeepsWellFormed(Bids, bids, newAsk.price, newAsk.quantity);
      rest := newAsk;
      while bids != [] && !(rest.price > bids[0].price)
        invariant asks == old(asks)
        invariant rest == newAsk.(quantity := rest.quantity)
        invariant Sweep(Bids, bids, newAsk.price, rest.quantity) == swept
        decreases |bids|
      {
        var currBid := bids[0];
        if currBid.quantity > rest.quantity {
          bids := [currBid.(quantity := currBid.quantity - rest.quantity)] + bids[1..];
          rest := rest.(quantity := 0);
          break;
        }
        rest := rest.(quantity := rest.quantity - currBid.quantity);
        bids := bids[1..];
      }
      assert bids == swept.levels && rest.quantity == swept.remaining;
      if rest.quantity > 0 {
        AddAsk(rest);
      }
    }

    /** NewOrder: dispatch on the position; a book that was not crossed stays uncrossed. */
    method NewOrder(newOrder: Order) returns (rest: Order)
      requires Valid()
      modifies this
      ensures Valid()
      ensures Fill(BookSnapshot(bids, asks), rest) == NewOrderResult(old(BookSnapshot(bids, asks)), newOrder)
      ensures old(NotCrossed(BookSnapshot(bids, asks))) ==> NotCrossed(BookSnapshot(bids, asks))
      ensures newOrder.position != BUY && newOrder.position != SELL ==>
                bids == old(bids) && asks == old(asks) && rest == newOrder
    {
      if NotCrossed(BookSnapshot(bids, asks)) {
        NewOrderKeepsUncrossed(BookSnapshot(bids, asks), newOrder);
      }
      if newOrder.position == BUY {
        rest := FillBid(newOrder);
      } else if newOrder.position == SELL {
        rest := FillAsk(newOrder);
      } else {
        rest := newOrder;
      }
    }

    /**
     * Snapshot: both sides in tree order, asks by rising price and bids by falling price.
     * It changes nothing, so two calls in a row return equal snapshots.
     */
    method Snapshot() returns (snap: BookSnapshot)
      requires Valid()
      ensures snap == BookSnapshot(bids, asks)
      ensures forall i, j :: 0 <= i < j < |snap.asks| ==> snap.asks[i].price < snap.asks[j].price
      ensures forall i, j :: 0 <= i < j < |snap.bids| ==> snap.bids[i].price > snap.bids[j].price
    {
      var snapAsks: seq<Order> := [];
      for k := 0 to |asks|
        invariant snapAsks == asks[..k]
      {
        snapAsks := snapAsks + [asks[k]];
      }
      var snapBids: seq<Order> := [];
      for k := 0 to |bids|
        invariant snapBids == bids[..k]
      {
        snapBids := snapBids + [bids[k]];
      }
      snap := BookSnapshot(snapBids, snapAsks);
      SortedMeansPriceOrder(Asks, asks);
      SortedMeansPriceOrder(Bids, bids);
    }
  }
}
