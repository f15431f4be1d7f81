/** The scalar types and plain records shared by the order book, the rings and the workloads. */
module Types {
  const U64: int := 0x1_0000_0000_0000_0000
  const U32: int := 0x1_0000_0000

  type u64 = x: int | 0 <= x < U64
  type u32 = x: int | 0 <= x < U32

  type OrderId = u64
  type Price = u64
  type Quantity = u64
  type OrderIndex = u32

  /** The index that no pool slot ever has. */
  const NULL_ORDER_INDEX: OrderIndex := 0xFFFF_FFFF

  datatype Option<+T> = None | Some(value: T)

  datatype Side = Buy | Sell
  {
    function Opposite(): Side {
      if this.Buy? then Sell else Buy
    }
  }

  /** A pool slot: the order resting in it and its links to the neighbours in its price level. */
  datatype Order = Order(orderId: OrderId, price: Price, qty: Quantity, next: OrderIndex, prev: OrderIndex, side: Side)

  /** The queue header of one price. */
  datatype PriceLevel = PriceLevel(head: OrderIndex, tail: OrderIndex, totalQty: Quantity, orderCount: nat)

  const EMPTY_LEVEL := PriceLevel(NULL_ORDER_INDEX, NULL_ORDER_INDEX, 0, 0)

  datatype Execution = Execution(incomingId: OrderId, restingId: OrderId, price: Price, qty: Quantity)

  datatype CommandType = AddLimit | CancelOrder

  datatype OrderCommand = OrderCommand(orderId: OrderId, price: Price, qty: Quantity, kind: CommandType, side: Side)

  /** Addition and subtraction of the source's 64-bit unsigned integers. */
  function AddWrap(a: u64, b: u64): u64 { (a + b) % U64 }

  function SubWrap(a: u64, b: u64): u64 { (a - b) % U64 }
}
