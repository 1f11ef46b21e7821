/** OrderService: an order table keyed by order id with add, status lookup,
    address change and cancellation. */
module OrderService {
  import opened Wrappers

  /** The stored order; status and address are the fields the source updates. */
  datatype Order = Order(orderId: string, status: string, deliveryAddress: string, items: seq<string>)

  datatype OrderStatus = OrderStatus(orderId: string, status: string, deliveryAddress: string)

  /** The service's success report. */
  datatype Outcome = Outcome(success: bool, message: string)

  function NotFound(orderId: string): string {
    "주문을 찾을 수 없습니다: " + orderId
  }

  /** A table is well formed when every order is stored under its own id. */
  predicate KeyedById(orders: map<string, Order>) {
    forall id :: id in orders ==> orders[id].orderId == id
  }

  /** The address change on the table as a value. */
  function WithAddress(orders: map<string, Order>, orderId: string, newAddress: string): (r: map<string, Order>)
    requires orderId in orders
    ensures r.Keys == orders.Keys
  {
    orders[orderId := orders[orderId].(deliveryAddress := newAddress)]
  }

  /** Changing an address changes only that order and only its address. */
  lemma WithAddressOnlyThat(orders: map<string, Order>, orderId: string, newAddress: string, other: string)
    requires orderId in orders && other in orders && other != orderId
    ensures var r := WithAddress(orders, orderId, newAddress);
      r[other] == orders[other]
      && r[orderId].deliveryAddress == newAddress
      && r[orderId].orderId == orders[orderId].orderId
      && r[orderId].status == orders[orderId].status
      && r[orderId].items == orders[orderId].items
  {
  }

  /** The table stays keyed by id under add, change and cancel. */
  lemma KeyedPreserved(orders: map<string, Order>, o: Order, id: string, a: string)
    requires KeyedById(orders)
    ensures KeyedById(orders[o.orderId := o])
    ensures id in orders ==> KeyedById(WithAddress(orders, id, a))
    ensures KeyedById(orders - {id})
  {
  }

  class OrderTable {
    var orders: map<string, Order>

    ghost predicate Valid()
      reads this
    {
      KeyedById(orders)
    }

    constructor ()
      ensures Valid() && orders == map[]
    {
      orders := map[];
    }

    /** addOrder: inserts the order, or replaces the one with the same id. */
    method AddOrder(order: Order)
      requires Valid()
      modifies this
      ensures Valid()
      ensures orders == old(orders)[order.orderId := order]
    {
      orders := orders[order.orderId := order];
    }

    /** getOrderStatus: a missing id is an error. */
    method GetOrderStatus(orderId: string) returns (r: Result<OrderStatus>)
      requires Valid()
      ensures orderId !in orders ==> r == Err(NotFound(orderId))
      ensures orderId in orders ==>
        r == Ok(OrderStatus(orderId, orders[orderId].status, orders[orderId].deliveryAddress))
    {
      if orderId !in orders {
        return Err(NotFound(orderId));
      }
      var order := orders[orderId];
      return Ok(OrderStatus(order.orderId, order.status, order.deliveryAddress));
    }

    /** changeDeliveryAddress: a missing id is an error and changes nothing. */
    method ChangeDeliveryAddress(orderId: string, newAddress: string) returns (r: Result<Outcome>)
      requires Valid()
      modifies this
      ensures Valid()
      ensures orderId !in old(orders) ==> r == Err(NotFound(orderId)) && orders == old(orders)
      ensures orderId in old(orders) ==>
        r == Ok(Outcome(true, "배송지가 변경되었습니다: " + newAddress))
        && orders == WithAddress(old(orders), orderId, newAddress)
    {
      if orderId !in orders {
        return Err(NotFound(orderId));
      }
      KeyedPreserved(orders, orders[orderId], orderId, newAddress);
      orders := orders[orderId := orders[orderId].(deliveryAddress := newAddress)];
      return Ok(Outcome(true, "배송지가 변경되었습니다: " + newAddress));
    }

    /** cancelOrder: removes the order; a missing id is an error and changes nothing. */
    method CancelOrder(orderId: string) returns (r: Result<Outcome>)
      requires Valid()
      modifies this
      ensures Valid()
      ensures orderId !in old(orders) ==> r == Err(NotFound(orderId)) && orders == old(orders)
      ensures orderId in old(orders) ==>
        r == Ok(Outcome(true, "주문이 취소되었습니다: " + orderId))
        && orders == old(orders) - {orderId}
    {
      if orderId !in orders {
        return Err(NotFound(orderId));
      }
      orders := orders - {orderId};
      return Ok(Outcome(true, "주문이 취소되었습니다: " + orderId));
    }

    /** getAllOrders: one order per stored id (in no particular order). */
    method GetAllOrders() returns (r: seq<Order>)
      requires Valid()
      ensures |r| == |orders.Keys|
      ensures forall o :: o in r <==> o in orders.Values
      ensures forall i, j :: 0 <= i < j < |r| ==> r[i].orderId != r[j].orderId
    {
      r := [];
      var left := orders.Keys;
      while left != {}
        invariant left <= orders.Keys
        invariant |r| + |left| == |orders.Keys|
        invariant forall i :: 0 <= i < |r| ==> r[i].orderId in orders && orders[r[i].orderId] == r[i]
        invariant forall i :: 0 <= i < |r| ==> r[i].orderId !in left
        invariant forall id :: id in orders.Keys - left ==> orders[id] in r
        invariant forall i, j :: 0 <= i < j < |r| ==> r[i].orderId != r[j].orderId
        decreases |left|
      {
        var id :| id in left;
        r := r + [orders[id]];
        left := left - {id};
      }
    }
  }
}
