/** Messages, orders and the constants of the exchange protocol. */
module Exchange {

  // The all-ones "invalid" values of the unsigned 32- and 64-bit fields, and the
  // largest signed 64-bit value, which marks an invalid price.
  const QTY_INVALID: nat := 0xFFFF_FFFF
  const ORDER_ID_INVALID: nat := 0xFFFF_FFFF_FFFF_FFFF
  const PRIORITY_INVALID: nat := 0xFFFF_FFFF_FFFF_FFFF
  const PRICE_INVALID: int := 0x7FFF_FFFF_FFFF_FFFF

  datatype Side = Buy | Sell | NoSide

  function Opposite(side: Side): Side {
    match side
    case Buy => Sell
    case Sell => Buy
    case NoSide => NoSide
  }

  datatype Order = Order(
    tickerId: nat,
    clientId: nat,
    clientOrderId: nat,
    marketOrderId: nat,
    side: Side,
    price: int,
    qty: nat,
    priority: nat)
  {
    function Key(): (nat, nat) { (clientId, clientOrderId) }
  }

  datatype RequestType = NewRequest | CancelRequest | InvalidRequest

  datatype Request = Request(
    kind: RequestType,
    clientId: nat,
    tickerId: nat,
    orderId: nat,
    side: Side,
    price: int,
    qty: nat)

  datatype ResponseType = Accepted | Cancelled | Filled | CancelRejected

  datatype Response = Response(
    kind: ResponseType,
    clientId: nat,
    tickerId: nat,
    clientOrderId: nat,
    marketOrderId: nat,
    side: Side,
    price: int,
    qtyExec: nat,
    qtyRemain: nat)

  datatype UpdateType = Add | Modify | Cancel | Trade

  datatype Update = Update(
    kind: UpdateType,
    orderId: nat,
    tickerId: nat,
    side: Side,
    price: int,
    qty: nat,
    priority: nat)

  function Min(a: nat, b: nat): nat { if a <= b then a else b }
}
