/** Orders, fills and requests as the perpetuals engine handles them.
    Prices and sizes are raw fixed-point integers at one common scale. */
module Orders {
  import opened Options

  type Account = nat
  type MarketId = nat
  type OrderId = nat

  datatype Side = Buy | Sell

  datatype TimeInForce = Gtc | Ioc | Fok | Alo

  datatype OrderType = Limit(tif: TimeInForce) | AtMarket

  datatype OrderStatus = Open | PartiallyFilled | Filled | Canceled

  datatype TriggerDirection = Above | Below

  /** What a user submits. */
  datatype OrderRequest = OrderRequest(
    market: MarketId, side: Side, price: int, size: int, orderType: OrderType,
    reduceOnly: bool, triggerPrice: Option<int>, triggerDirection: Option<TriggerDirection>)

  datatype Order = Order(
    id: OrderId, owner: Account, market: MarketId, side: Side, price: int,
    originalSize: int, remaining: int, orderType: OrderType, reduceOnly: bool,
    timestamp: nat, status: OrderStatus,
    triggerPrice: Option<int>, triggerDirection: Option<TriggerDirection>)
  {
    predicate PostOnly() { orderType == Limit(Alo) }

    predicate FillOrKill() { orderType == Limit(Fok) }

    /** Only good-til-canceled and post-only limit orders may rest on the book. */
    predicate ShouldRest() { orderType == Limit(Gtc) || orderType == Limit(Alo) }

    /** Take `size` off the remaining size. */
    function Fill(size: int): Order {
      this.(remaining := remaining - size,
            status := if remaining - size == 0 then Filled else PartiallyFilled)
    }
  }

  function NewOrder(id: OrderId, owner: Account, req: OrderRequest, timestamp: nat): Order {
    Order(id, owner, req.market, req.side, req.price, req.size, req.size, req.orderType,
          req.reduceOnly, timestamp, Open, req.triggerPrice, req.triggerDirection)
  }

  datatype Fill = Fill(
    market: MarketId, maker: Account, taker: Account, makerOrderId: OrderId, takerOrderId: OrderId,
    price: int, size: int, takerBuys: bool)

  datatype Error =
    | MarketNotFound
    | MarketPaused
    | InvalidPrice
    | InvalidSize
    | SizeTooSmall
    | SizeTooLarge
    | ReduceOnlyViolation
    | InsufficientMargin
    | PostOnlyWouldCross
    | FokNotFilled
    | OrderNotFound
    | OrderNotOwned

  datatype Result<+T> = Ok(value: T) | Err(error: Error)

  function Min(a: int, b: int): int { if a <= b then a else b }

  /** No two orders have the same id. */
  ghost predicate OncePerId(orders: seq<Order>) {
    forall i, j :: 0 <= i < j < |orders| ==> orders[i].id != orders[j].id
  }
}
