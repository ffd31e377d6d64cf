/**
 * Model of src/orders/order.go: the order record, its JSON snapshot, the two
 * btree comparators and the order constructor.
 *
 * Price is float64 in the source and `real` here; it is only ever compared.
 * Quantity is a Go `int` (the type `Quanity`), unbounded here.
 */
module Orders {
  import opened Users

  /** orders.Position is a Go int; BUY and SELL are the first two iota values. Any other int can be decoded. */
  type Position = int

  const BUY: Position := 0
  const SELL: Position := 1

  /** An order. `user` is the *user.User pointer, null when no user is attached. */
  datatype Order = Order(user: User?, position: Position, quantity: int, price: real, ticker: Asset)
  {
    /** The JSON view of an order: the user pointer is replaced by the user's id, the nil UUID for no user. */
    function Snapshot(): (s: OrderSnapshot)
      ensures s.position == position && s.quantity == quantity && s.price == price && s.ticker == ticker
      ensures s.userId == if user == null then NilUUID else user.userId
    {
      OrderSnapshot(if user != null then user.userId else NilUUID, position, quantity, price, ticker)
    }
  }

  datatype OrderSnapshot = OrderSnapshot(userId: UUID, position: Position, quantity: int, price: real, ticker: Asset)

  /** Bid.Less: the bid tree keeps higher prices first. */
  predicate BidLess(b: Order, t: Order)
  {
    b.price > t.price
  }

  /** Ask.Less: the ask tree keeps lower prices first. */
  predicate AskLess(a: Order, t: Order)
  {
    a.price < t.price
  }

  /** NewOrder: the fields are taken from the arguments in declaration order. */
  function NewOrder(user: User?, position: Position, quantity: int, price: real, ticker: Asset): (o: Order)
    ensures o.user == user && o.position == position && o.quantity == quantity
    ensures o.price == price && o.ticker == ticker
  {
    Order(user, position, quantity, price, ticker)
  }

  /** Bid.Less is a strict order: irreflexive, asymmetric and transitive. */
  lemma BidLessIsStrictOrder(a: Order, b: Order, c: Order)
    ensures !BidLess(a, a)
    ensures BidLess(a, b) ==> !BidLess(b, a)
    ensures BidLess(a, b) && BidLess(b, c) ==> BidLess(a, c)
  {
  }

  /** Ask.Less is a strict order: irreflexive, asymmetric and transitive. */
  lemma AskLessIsStrictOrder(a: Order, b: Order, c: Order)
    ensures !AskLess(a, a)
    ensures AskLess(a, b) ==> !AskLess(b, a)
    ensures AskLess(a, b) && AskLess(b, c) ==> AskLess(a, c)
  {
  }

  /**
   * The btree treats two items as the same key when neither is less than the other.
   * For both comparators that happens exactly when the prices are equal, so each tree
   * holds at most one item per price, and any two different prices are ordered.
   */
  lemma SameKeyIsSamePrice(a: Order, b: Order)
    ensures (!BidLess(a, b) && !BidLess(b, a)) <==> a.price == b.price
    ensures (!AskLess(a, b) && !AskLess(b, a)) <==> a.price == b.price
    ensures a.price != b.price ==> (BidLess(a, b) <==> AskLess(b, a))
  {
  }
}
