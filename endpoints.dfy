/**
 * The order-admission part of the add_order handler in src/api/endpoints.go: the guard
 * chain on a decoded order (lines 144-187), the call into the book (line 189) and the
 * classification of the result (lines 192-200). Request decoding, status codes and the
 * response text are transport and are not modelled; a response is a Rejection or an Outcome.
 *
 * The query parameter `userId` is passed as a string, uuid.Parse as the function `parse`,
 * and the user registry behind GetUser as a map from ids to users.
 */
module Endpoints {
  import opened Wrappers
  import opened Users
  import opened Orders
  import opened Levels
  import opened Matching
  import opened Orderbook

  /** Why an order is turned away, one reason per guard of add_order. */
  datatype Rejection =
    | InvalidPosition
    | QuantityNotPositive
    | PriceNotPositive
    | MissingUserId
    | MalformedUserId
    | UserNotRegistered
    | InsufficientUSD
    | InsufficientTicker

  /** The place of each guard in the chain; the first failing guard decides the answer. */
  function Rank(e: Rejection): nat
  {
    match e
    case InvalidPosition => 0
    case QuantityNotPositive => 1
    case PriceNotPositive => 2
    case MissingUserId => 3
    case MalformedUserId => 4
    case UserNotRegistered => 5
    case InsufficientUSD => 6
    case InsufficientTicker => 7
  }

  /** Whether the guard behind `e` fails, read on its own, without the guards before it. */
  predicate Fails(e: Rejection, o: Order, userIdParam: string, parse: string -> Option<UUID>,
                  registered: map<UUID, map<Asset, real>>)
  {
    match e
    case InvalidPosition => o.position != BUY && o.position != SELL
    case QuantityNotPositive => o.quantity <= 0
    case PriceNotPositive => o.price <= 0.0
    case MissingUserId => userIdParam == ""
    case MalformedUserId => parse(userIdParam).None?
    case UserNotRegistered => parse(userIdParam).Some? && parse(userIdParam).value !in registered
    case InsufficientUSD =>
      o.position == BUY && parse(userIdParam).Some? && parse(userIdParam).value in registered
      && BalanceOf(registered[parse(userIdParam).value], "USD") < o.price * (o.quantity as real)
    case InsufficientTicker =>
      o.position == SELL && parse(userIdParam).Some? && parse(userIdParam).value in registered
      && BalanceOf(registered[parse(userIdParam).value], o.ticker) < o.quantity as real
  }

  /**
   * The guard chain of add_order. An order is admitted exactly when no guard fails, and then
   * the id names a registered user. A rejection names a guard that fails while every guard
   * before it passes, so the reasons come in the order of the chain. Funds are checked once,
   * against the full requested size: USD against price times quantity for a BUY, the
   * order's ticker against quantity for a SELL, a missing asset reading as zero.
   */
  function Admit(o: Order, userIdParam: string, parse: string -> Option<UUID>,
                 registered: map<UUID, map<Asset, real>>): (r: Result<UUID, Rejection>)
    ensures r.Err? ==> Fails(r.error, o, userIdParam, parse, registered)
    ensures r.Err? ==> forall e :: Rank(e) < Rank(r.error) ==> !Fails(e, o, userIdParam, parse, registered)
    ensures r.Ok? <==> forall e :: !Fails(e, o, userIdParam, parse, registered)
    ensures r.Ok? ==> parse(userIdParam) == Some(r.value) && r.value in registered
  {
    var failing :=
      if o.position != BUY && o.position != SELL then Some(InvalidPosition)
      else if o.quantity <= 0 then Some(QuantityNotPositive)
      else if o.price <= 0.0 then Some(PriceNotPositive)
      else if userIdParam == "" then Some(MissingUserId)
      else match parse(userIdParam)
        case None => Some(MalformedUserId)
        case Some(id) =>
          if id !in registered then Some(UserNotRegistered)
          else if o.position == BUY && BalanceOf(registered[id], "USD") < o.price * (o.quantity as real) then
            Some(InsufficientUSD)
          else if o.position == SELL && BalanceOf(registered[id], o.ticker) < o.quantity as real then
            Some(InsufficientTicker)
          else None;
    match failing
    case Some(e) =>
      assert Fails(e, o, userIdParam, parse, registered);
      Err(e)
    case None =>
      Ok(parse(userIdParam).value)
  }

  /** What add_order reports after NewOrder, from the original and the remaining quantity. */
  datatype Outcome = FilledFully | PartiallyPlaced(units: int) | Received

  /** Lines 192-200: nothing left is a full fill, less than the original is a partial fill, anything else was only received. */
  function Classify(org: int, remaining: int): (r: Outcome)
    ensures r == FilledFully <==> remaining == 0
    ensures r.PartiallyPlaced? <==> remaining != 0 && remaining < org
    ensures r.PartiallyPlaced? ==> r.units == org - remaining && r.units > 0
    ensures r == Received <==> remaining != 0 && org <= remaining
  {
    if remaining == 0 then FilledFully
    else if org > remaining then PartiallyPlaced(org - remaining)
    else Received
  }

  /**
   * For an admitted order on a well-formed book the classification tells the truth about the
   * sweep: a full fill leaves nothing, a partial fill reports exactly the quantity taken off the
   * opposite side, and "received" happens exactly when the best opposite level does not cross.
   */
  lemma OutcomeOfNewOrder(b: BookSnapshot, o: Order)
    requires WellFormed(b) && o.quantity > 0 && (o.position == BUY || o.position == SELL)
    ensures var f := NewOrderResult(b, o);
            var c := Classify(o.quantity, f.rest.quantity);
            var side := if o.position == BUY then Asks else Bids;
            var before := if o.position == BUY then b.asks else b.bids;
            var after := if o.position == BUY then f.book.asks else f.book.bids;
            && 0 <= f.rest.quantity <= o.quantity
            && (c.PartiallyPlaced? ==> c.units == Total(before) - Total(after))
            && (c == Received <==> before == [] || !Crosses(side, o.price, before[0]))
  {
    var side := if o.position == BUY then Asks else Bids;
    var before := if o.position == BUY then b.asks else b.bids;
    SweepRemaining(side, before, o.price, o.quantity);
    NewOrderConserves(b, o);
  }

  /** The balances of the registered users, as the guard chain reads them. */
  function Registered(users: map<UUID, User>): (r: map<UUID, map<Asset, real>>)
    reads users.Values
    ensures r.Keys == users.Keys
    ensures forall id :: id in users ==> r[id] == users[id].balance
  {
    map id | id in users :: users[id].balance
  }

  datatype Response = Rejected(reason: Rejection) | Accepted(outcome: Outcome)

  /**
   * add_order after decoding. A rejected order never reaches the book, so the book is
   * unchanged; an admitted order is attached to its user and submitted. No balance changes
   * either way: the source has no settlement step.
   */
  method AddOrder(book: OrderBook, order: Order, userIdParam: string, parse: string -> Option<UUID>,
                  users: map<UUID, User>) returns (resp: Response)
    requires book.Valid()
    modifies book
    ensures book.Valid()
    ensures forall id :: id in users ==> users[id].balance == old(users[id].balance)
    ensures match Admit(order, userIdParam, parse, old(Registered(users)))
      case Err(e) =>
        resp == Rejected(e) && book.bids == old(book.bids) && book.asks == old(book.asks)
      case Ok(id) =>
        var f := NewOrderResult(old(BookSnapshot(book.bids, book.asks)), order.(user := users[id]));
        BookSnapshot(book.bids, book.asks) == f.book
        && resp == Accepted(Classify(order.quantity, f.rest.quantity))
  {
    var verdict := Admit(order, userIdParam, parse, Registered(users));
    match verdict
    case Err(e) =>
      resp := Rejected(e);
    case Ok(id) =>
      var newOrder := order.(user := users[id]);
      var org := newOrder.quantity;
      var rest := book.NewOrder(newOrder);
      resp := Accepted(Classify(org, rest.quantity));
  }
}
