/**
 * The matching sweep of src/orderbook/orderBook.go (fillBid, fillAsk, NewOrder) as
 * functions on values, with the properties the order book keeps. The class in
 * orderbook.dfy runs the same sweep step by step and is proved equal to these
 * functions.
 */
module Matching {
  import opened Orders
  import opened Levels

  /**
   * Whether a resting level on `side` trades with an incoming order limited at `limit`.
   * fillBid stops at the first ask whose price is above the bid's limit; fillAsk stops
   * at the first bid whose price is below the ask's limit.
   */
  predicate Crosses(side: Side, limit: real, level: Order)
  {
    match side
    case Asks => !(limit < level.price)
    case Bids => !(limit > level.price)
  }

  datatype SweepResult = SweepResult(levels: seq<Order>, remaining: int)

  /**
   * The Ascend callback loop over the opposite side, best level first. A crossing level
   * larger than what remains is reduced and the sweep stops; any other crossing level is
   * deleted and the sweep goes on, even when nothing remains afterwards.
   */
  function Sweep(side: Side, levels: seq<Order>, limit: real, remaining: int): (r: SweepResult)
    ensures |r.levels| <= |levels|
    ensures Total(levels) - Total(r.levels) == remaining - r.remaining
    decreases |levels|
  {
    if levels == [] || !Crosses(side, limit, levels[0]) then SweepResult(levels, remaining)
    else if levels[0].quantity > remaining then
      var reduced := [levels[0].(quantity := levels[0].quantity - remaining)] + levels[1..];
      assert reduced[1..] == levels[1..];
      SweepResult(reduced, 0)
    else
      Sweep(side, levels[1..], limit, remaining - levels[0].quantity)
  }

  /**
   * How a sweep result relates to the side it swept: `d` levels are gone from the front and all
   * of them crossed; the levels after the next one are untouched; the next one differs at most
   * in its quantity, and when it differs it crossed, it stays positive and nothing remains.
   */
  ghost predicate SweptShape(side: Side, limit: real, levels: seq<Order>, r: SweepResult)
  {
    |r.levels| <= |levels| &&
    var d := |levels| - |r.levels|;
    && (forall i :: 0 <= i < d ==> Crosses(side, limit, levels[i]))
    && (forall i :: d < i < |levels| ==> r.levels[i - d] == levels[i])
    && (d < |levels| ==> r.levels[0] == levels[d].(quantity := r.levels[0].quantity))
    && (d < |levels| && r.levels[0] != levels[d] ==>
          Crosses(side, limit, levels[d]) && r.remaining == 0 && r.levels[0].quantity > 0)
  }

  /** Deleting one more crossing level in front keeps the shape. */
  lemma SweptShapeStep(side: Side, limit: real, levels: seq<Order>, r: SweepResult)
    requires levels != [] && Crosses(side, limit, levels[0])
    requires SweptShape(side, limit, levels[1..], r)
    ensures SweptShape(side, limit, levels, r)
  {
    var rest := levels[1..];
    var d := |levels| - |r.levels|;
    assert d == |rest| - |r.levels| + 1;
    forall i | 0 <= i < d ensures Crosses(side, limit, levels[i]) {
      if i > 0 {
        assert levels[i] == rest[i - 1];
      }
    }
    forall i | d < i < |levels| ensures r.levels[i - d] == levels[i] {
      assert levels[i] == rest[i - 1];
      assert r.levels[(i - 1) - (d - 1)] == rest[i - 1];
    }
    if d < |levels| {
      assert levels[d] == rest[d - 1];
    }
  }

  /**
   * Price priority. The levels the sweep deletes are a prefix of the side, and every one
   * of them crossed. Of the levels after them only the first can change, and only in its
   * quantity; when it does change it crossed, it stays positive and nothing remains of the
   * incoming order.
   */
  lemma {:induction false} SweepShape(side: Side, levels: seq<Order>, limit: real, remaining: int)
    ensures SweptShape(side, limit, levels, Sweep(side, levels, limit, remaining))
    decreases |levels|
  {
    var r := Sweep(side, levels, limit, remaining);
    if levels == [] || !Crosses(side, limit, levels[0]) {
      assert r.levels == levels;
    } else if levels[0].quantity > remaining {
      assert r.levels == [levels[0].(quantity := levels[0].quantity - remaining)] + levels[1..];
    } else {
      SweepShape(side, levels[1..], limit, remaining - levels[0].quantity);
      SweptShapeStep(side, limit, levels, r);
    }
  }

  /** fillBid never changes an ask priced above the bid, fillAsk never changes a bid priced below the ask. */
  lemma SweepStopsAtLimit(side: Side, levels: seq<Order>, limit: real, remaining: int, i: nat)
    requires i < |levels| && !Crosses(side, limit, levels[i])
    ensures var r := Sweep(side, levels, limit, remaining);
            |levels| - |r.levels| <= i && r.levels[i - (|levels| - |r.levels|)] == levels[i]
  {
    SweepShape(side, levels, limit, remaining);
  }

  /**
   * What is left of the incoming order. With positive levels and a non-negative quantity the
   * remainder never grows; a positive remainder means every crossing level was deleted and the
   * best level left does not cross; the remainder is untouched exactly when the best level does
   * not cross.
   */
  lemma {:induction false} SweepRemaining(side: Side, levels: seq<Order>, limit: real, remaining: int)
    requires Positive(levels)
    ensures var r := Sweep(side, levels, limit, remaining);
            && (0 <= remaining ==> 0 <= r.remaining <= remaining)
            && (r.remaining > 0 ==> r.levels == levels[|levels| - |r.levels|..])
            && (r.remaining > 0 ==> r.levels == [] || !Crosses(side, limit, r.levels[0]))
            && (remaining > 0 ==> (r.remaining == remaining <==> levels == [] || !Crosses(side, limit, levels[0])))
    decreases |levels|
  {
    if levels == [] || !Crosses(side, limit, levels[0]) {
    } else if levels[0].quantity > remaining {
    } else {
      var rest := levels[1..];
      var r := Sweep(side, rest, limit, remaining - levels[0].quantity);
      SweepRemaining(side, rest, limit, remaining - levels[0].quantity);
      assert levels[0].quantity > 0;
      if r.remaining > 0 {
        assert rest[|rest| - |r.levels|..] == levels[|levels| - |r.levels|..];
      }
    }
  }

  /** With nothing left to fill, the sweep is the identity: the subtract-zero update after an exact fill changes nothing. */
  lemma SweepOfNothingChangesNothing(side: Side, levels: seq<Order>, limit: real)
    requires Positive(levels)
    ensures Sweep(side, levels, limit, 0) == SweepResult(levels, 0)
  {
    if levels != [] && Crosses(side, limit, levels[0]) {
      assert levels[0].quantity > 0;
      assert [levels[0].(quantity := levels[0].quantity - 0)] + levels[1..] == levels;
    }
  }

  /** The sweep keeps the side strictly sorted with positive levels, and never improves its best price. */
  lemma SweepKeepsWellFormed(side: Side, levels: seq<Order>, limit: real, remaining: int)
    requires Sorted(side, levels) && Positive(levels)
    ensures var r := Sweep(side, levels, limit, remaining);
            Sorted(side, r.levels) && Positive(r.levels)
            && (r.levels != [] ==> !Less(side, r.levels[0], levels[0]))
  {
    var r := Sweep(side, levels, limit, remaining);
    var d := |levels| - |r.levels|;
    SweepShape(side, levels, limit, remaining);
    var tail := levels[d..];
    SortedSuffix(side, levels, d);
    forall k | 0 <= k < |r.levels| ensures r.levels[k].price == tail[k].price && r.levels[k].quantity > 0 {
      if k > 0 {
        assert r.levels[(k + d) - d] == levels[k + d];
      } else if r.levels[0] == levels[d] {
        assert levels[d].quantity > 0;
      }
    }
    SamePricesKeepSorted(side, tail, r.levels);
    if r.levels != [] && d > 0 {
      assert Less(side, levels[0], levels[d]);
      assert r.levels[0].price == levels[d].price;
    }
  }

  /** orderbook.BookSnapshot, also used as the value of the whole book: both sides, best level first. */
  datatype BookSnapshot = BookSnapshot(bids: seq<Order>, asks: seq<Order>)

  /** The new order as it leaves NewOrder (its Quantity updated in place) and the book after it. */
  datatype Fill = Fill(book: BookSnapshot, rest: Order)

  /** Both sides strictly sorted by their comparators, one level per price, every level positive. */
  ghost predicate WellFormed(b: BookSnapshot)
  {
    Sorted(Bids, b.bids) && Positive(b.bids) && Sorted(Asks, b.asks) && Positive(b.asks)
  }

  /** The best bid is below the best ask, or a side is empty. */
  predicate NotCrossed(b: BookSnapshot)
  {
    b.bids == [] || b.asks == [] || b.bids[0].price < b.asks[0].price
  }

  /** addBid builds a new level from Position, Quantity and Price only: no user and no ticker. */
  function BidEntry(o: Order): Order
  {
    Order(null, o.position, o.quantity, o.price, "")
  }

  /** fillBid: sweep the asks, then rest what is left as a bid at the bid's own price. */
  function FillBidResult(b: BookSnapshot, newBid: Order): Fill
  {
    var s := Sweep(Asks, b.asks, newBid.price, newBid.quantity);
    var rest := newBid.(quantity := s.remaining);
    Fill(BookSnapshot(if rest.quantity > 0 then Upsert(Bids, b.bids, BidEntry(rest)) else b.bids, s.levels), rest)
  }

  /** fillAsk: sweep the bids, then rest what is left, the whole order record, as an ask at its own price. */
  function FillAskResult(b: BookSnapshot, newAsk: Order): Fill
  {
    var s := Sweep(Bids, b.bids, newAsk.price, newAsk.quantity);
    var rest := newAsk.(quantity := s.remaining);
    Fill(BookSnapshot(s.levels, if rest.quantity > 0 then Upsert(Asks, b.asks, rest) else b.asks), rest)
  }

  /** NewOrder: BUY goes to fillBid, SELL to fillAsk, and any other position does nothing. */
  function NewOrderResult(b: BookSnapshot, o: Order): Fill
  {
    if o.position == BUY then FillBidResult(b, o)
    else if o.position == SELL then FillAskResult(b, o)
    else Fill(b, o)
  }

  /** Every submission keeps both sides strictly sorted, one level per price, with positive levels. */
  lemma NewOrderKeepsWellFormed(b: BookSnapshot, o: Order)
    requires WellFormed(b)
    ensures WellFormed(NewOrderResult(b, o).book)
  {
    var f := NewOrderResult(b, o);
    if o.position == BUY {
      SweepKeepsWellFormed(Asks, b.asks, o.price, o.quantity);
      if f.rest.quantity > 0 {
        UpsertSorted(Bids, b.bids, BidEntry(f.rest));
        UpsertPositive(Bids, b.bids, BidEntry(f.rest));
      }
    } else if o.position == SELL {
      SweepKeepsWellFormed(Bids, b.bids, o.price, o.quantity);
      if f.rest.quantity > 0 {
        UpsertSorted(Asks, b.asks, f.rest);
        UpsertPositive(Asks, b.asks, f.rest);
      }
    }
  }

  /** No crossed book: a book whose best bid is below its best ask keeps that after any submission. */
  lemma NewOrderKeepsUncrossed(b: BookSnapshot, o: Order)
    requires WellFormed(b) && NotCrossed(b)
    ensures NotCrossed(NewOrderResult(b, o).book)
  {
    var f := NewOrderResult(b, o);
    if o.position == BUY {
      var s := Sweep(Asks, b.asks, o.price, o.quantity);
      SweepKeepsWellFormed(Asks, b.asks, o.price, o.quantity);
      SweepRemaining(Asks, b.asks, o.price, o.quantity);
      if s.remaining > 0 {
        UpsertBest(Bids, b.bids, BidEntry(f.rest));
      }
    } else if o.position == SELL {
      var s := Sweep(Bids, b.bids, o.price, o.quantity);
      SweepKeepsWellFormed(Bids, b.bids, o.price, o.quantity);
      SweepRemaining(Bids, b.bids, o.price, o.quantity);
      if s.remaining > 0 {
        UpsertBest(Asks, b.asks, f.rest);
      }
    }
  }

  /**
   * Quantity conservation. The new order's quantity is what remains of it plus what the
   * sweep took off the opposite side; its own side grows by exactly the remainder when
   * that is positive. Only the quantity of the order changes, and any position other
   * than BUY or SELL leaves the book and the order as they were.
   */
  lemma NewOrderConserves(b: BookSnapshot, o: Order)
    ensures var f := NewOrderResult(b, o);
            var rested := if f.rest.quantity > 0 then f.rest.quantity else 0;
            && f.rest == o.(quantity := f.rest.quantity)
            && (o.position == BUY ==>
                  o.quantity == f.rest.quantity + (Total(b.asks) - Total(f.book.asks))
                  && Total(f.book.bids) == Total(b.bids) + rested)
            && (o.position == SELL ==>
                  o.quantity == f.rest.quantity + (Total(b.bids) - Total(f.book.bids))
                  && Total(f.book.asks) == Total(b.asks) + rested)
            && (o.position != BUY && o.position != SELL ==> f == Fill(b, o))
  {
    var f := NewOrderResult(b, o);
    if o.position == BUY && f.rest.quantity > 0 {
      UpsertTotal(Bids, b.bids, BidEntry(f.rest));
    } else if o.position == SELL && f.rest.quantity > 0 {
      UpsertTotal(Asks, b.asks, f.rest);
    }
  }

  /**
   * A positive remainder rests on the order's own side at its own limit price: the quantity
   * there grows by the remainder and every other price of that side keeps its quantity.
   * With nothing left the own side is unchanged.
   */
  lemma NewOrderRestsResidual(b: BookSnapshot, o: Order, price: real)
    requires WellFormed(b)
    ensures var f := NewOrderResult(b, o);
            var rested := if f.rest.quantity > 0 && price == o.price then f.rest.quantity else 0;
            && (o.position == BUY ==> QuantityAt(f.book.bids, price) == QuantityAt(b.bids, price) + rested)
            && (o.position == SELL ==> QuantityAt(f.book.asks, price) == QuantityAt(b.asks, price) + rested)
            && (f.rest.quantity <= 0 && o.position == BUY ==> f.book.bids == b.bids)
            && (f.rest.quantity <= 0 && o.position == SELL ==> f.book.asks == b.asks)
            // At a new price, a bid level is built without user or ticker; an ask level is the whole order.
            && (o.position == BUY && f.rest.quantity > 0 && Find(b.bids, o.price).None? ==>
                  BidEntry(f.rest) in multiset(f.book.bids))
            && (o.position == SELL && f.rest.quantity > 0 && Find(b.asks, o.price).None? ==>
                  f.rest in multiset(f.book.asks))
  {
    var f := NewOrderResult(b, o);
    if o.position == BUY && f.rest.quantity > 0 {
      UpsertQuantityAt(Bids, b.bids, BidEntry(f.rest), price);
      if Find(b.bids, o.price).None? {
        UpsertNew(Bids, b.bids, BidEntry(f.rest));
      }
    } else if o.position == SELL && f.rest.quantity > 0 {
      UpsertQuantityAt(Asks, b.asks, f.rest, price);
      if Find(b.asks, o.price).None? {
        UpsertNew(Asks, b.asks, f.rest);
      }
    }
  }
}
