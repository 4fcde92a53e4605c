/**
 * The Order and OrderItem models of orders/models.py with their save,
 * delete and recomputation hooks.
 *
 * The store is represented by the order itself: `items` holds the rows of
 * the item table that belong to the order (what `self.items` queries),
 * and `writes` lists, oldest first, the writes the order has issued for
 * its own row. An OrderItem object is the in-memory instance; its fields
 * reach the table only when it is saved.
 */
module OrderModels {
  import opened Wrappers
  import opened OrderRules

  /** A write of the order's own row. */
  datatype Write =
    | FullSave                    // `super().save()`: every field of the row
    | StatusOnly(orderStatus: int) // `save(update_fields=['order_status'])`

  class Order {
    var pk: Option<nat>
    var discount: Option<Cents>
    var deposit: Option<Cents>
    var orderValue: Cents
    var orderStatus: int
    var paid: int
    var items: seq<ItemRow>
    var writes: seq<Write>

    /**
     * The store's invariant: an order without a primary key has no items,
     * item rows have distinct keys, and every row holds the value its save
     * derived.
     */
    ghost predicate Valid()
      reads this
    {
      && (pk.None? ==> items == [])
      && UniqueIds(items)
      && forall k :: 0 <= k < |items| ==> Derived(items[k])
    }

    /** A new, unsaved order with the model's field defaults. */
    constructor (deposit: Option<Cents>, paid: int)
      ensures Valid()
      ensures pk == None && items == [] && writes == []
      ensures this.deposit == deposit && this.paid == paid
      ensures discount == Some(0) && orderValue == 0 && orderStatus == NOT_STARTED
    {
      pk := None;
      discount := Some(0);
      this.deposit := deposit;
      orderValue := 0;
      orderStatus := NOT_STARTED;
      this.paid := paid;
      items := [];
      writes := [];
    }

    /**
     * `calculate_totals`: with at least one item, the discount becomes the
     * sum of the item discounts and the order value the sum of the item
     * values; with none, both keep their previous values.
     */
    method CalculateTotals()
      requires Valid()
      modifies this`discount, this`orderValue
      ensures Valid()
      ensures |items| > 0 ==> discount == Some(OrderDiscount(items)) && orderValue == OrderValue(items)
      ensures |items| > 0 ==> orderValue + OrZero(discount) == OrderBasePrice(items)
      ensures |items| == 0 ==> discount == old(discount) && orderValue == old(orderValue)
    {
      if |items| > 0 {
        discount := Some(OrderDiscount(items));
        orderValue := OrderValue(items);
        ValuePlusDiscountIsBasePrice(items);
      }
    }

    /**
     * `update_order_status`: the status is derived from the stored items'
     * statuses and written, with a write of that field alone, only when it
     * differs from the current one.
     */
    method UpdateOrderStatus()
      modifies this`orderStatus, this`writes
      ensures orderStatus == DeriveStatus(Statuses(items))
      ensures orderStatus in STATUS_CHOICES
      ensures writes == old(writes) + (if old(orderStatus) == orderStatus then [] else [StatusOnly(orderStatus)])
    {
      var newStatus := DeriveStatus(Statuses(items));
      if orderStatus != newStatus {
        orderStatus := newStatus;
        writes := writes + [StatusOnly(newStatus)];
      }
    }

    /**
     * `if self.pk:` — a key is truthy when it is present and not 0, as
     * Python reads an integer.
     */
    predicate PkIsTruthy()
      reads this
    {
      pk.Some? && pk.value != 0
    }

    /**
     * `save`: an order whose primary key is truthy first recomputes its
     * totals; a first save only inserts the row, under the key `newPk` the
     * store hands out, and keeps the default totals. An order stored under
     * key 0 is, to the truthiness test, never saved and never recomputes.
     */
    method Save(newPk: nat)
      requires Valid()
      modifies this`pk, this`discount, this`orderValue, this`writes
      ensures Valid()
      ensures old(pk).Some? ==> pk == old(pk)
      ensures old(pk).None? ==> pk == Some(newPk)
      ensures old(PkIsTruthy()) && |items| > 0 ==>
        discount == Some(OrderDiscount(items)) && orderValue == OrderValue(items)
      ensures !old(PkIsTruthy()) || |items| == 0 ==>
        discount == old(discount) && orderValue == old(orderValue)
      ensures writes == old(writes) + [FullSave]
    {
      if PkIsTruthy() {
        CalculateTotals();
      } else if pk.None? {
        pk := Some(newPk);
      }
      writes := writes + [FullSave];
    }
  }

  /**
   * An order stored under key 0 and one stored under key 1, each saved, given
   * one item of price 500 with discount 100, and saved again: only the
   * second recomputes its value.
   */
  method KeyZeroNeverRecomputes() returns (zeroKeyValue: Cents, positiveKeyValue: Cents)
    ensures zeroKeyValue == 0
    ensures positiveKeyValue == 400
  {
    var first := new Order(None, NOT_PAID);
    first.Save(0);
    var firstItem := new OrderItem(first, 1, Some(500), Some(100), NOT_STARTED, LOW);
    var storedFirst := firstItem.Save();
    first.Save(0);
    zeroKeyValue := first.orderValue;

    var second := new Order(None, NOT_PAID);
    second.Save(1);
    var secondItem := new OrderItem(second, 1, Some(500), Some(100), NOT_STARTED, LOW);
    var storedSecond := secondItem.Save();
    var row := ItemRow(1, NOT_STARTED, 500, Some(100), 400, LOW);
    assert second.items == [row];
    assert OrderValue([row]) == ValueOf(row) + SumOf([row][1..], ValueOf);
    assert [row][1..] == [];
    second.Save(1);
    positiveKeyValue := second.orderValue;
  }

  /** Deriving the status twice in a row: the second derivation writes nothing. */
  method UpdateOrderStatusTwice(order: Order)
    modifies order`orderStatus, order`writes
    ensures order.orderStatus == DeriveStatus(Statuses(order.items))
    ensures order.writes == old(order.writes) +
      (if old(order.orderStatus) == order.orderStatus then [] else [StatusOnly(order.orderStatus)])
  {
    order.UpdateOrderStatus();
    ghost var afterFirst := order.writes;
    order.UpdateOrderStatus();
    assert order.writes == afterFirst;
  }

  class OrderItem {
    const order: Order
    const id: nat
    var basePrice: Option<Cents>
    var discount: Option<Cents>
    var itemValue: Option<Cents>
    var itemStatus: int
    var priorityLevel: int

    /** An unsaved item of `order`, to be stored under primary key `id`. */
    constructor (order: Order, id: nat, basePrice: Option<Cents>, discount: Option<Cents>,
                 itemStatus: int, priorityLevel: int)
      ensures this.order == order && this.id == id
      ensures this.basePrice == basePrice && this.discount == discount && itemValue == None
      ensures this.itemStatus == itemStatus && this.priorityLevel == priorityLevel
    {
      this.order := order;
      this.id := id;
      this.basePrice := basePrice;
      this.discount := discount;
      itemValue := None;
      this.itemStatus := itemStatus;
      this.priorityLevel := priorityLevel;
    }

    /**
     * `save`: derives the item value, then stores the row. The store
     * refuses the row (`stored` is false) when the base price is null or
     * the order has never been saved. The order's own fields, its totals
     * and its status among them, are not touched.
     */
    method Save() returns (stored: bool)
      requires order.Valid()
      modifies this`itemValue, order`items
      ensures order.Valid()
      ensures itemValue == Some(ItemValue(basePrice, discount))
      ensures stored <==> basePrice.Some? && order.pk.Some?
      ensures stored ==> (order.items ==
        Upsert(old(order.items), ItemRow(id, itemStatus, basePrice.value, discount, itemValue.value, priorityLevel)))
      ensures !stored ==> order.items == old(order.items)
      ensures order.orderStatus == old(order.orderStatus) && order.orderValue == old(order.orderValue)
      ensures order.discount == old(order.discount) && order.writes == old(order.writes)
    {
      var value := ItemValue(basePrice, discount);
      itemValue := Some(value);
      stored := basePrice.Some? && order.pk.Some?;
      if stored {
        var row := ItemRow(id, itemStatus, basePrice.value, discount, value, priorityLevel);
        assert Derived(row);
        order.items := Upsert(order.items, row);
      }
    }

    /**
     * `delete`: removes the item's row, then derives the status of the
     * order it belonged to from the rows that remain. The totals are not
     * recomputed.
     */
    method Delete()
      requires order.Valid()
      modifies order`items, order`orderStatus, order`writes
      ensures order.Valid()
      ensures order.items == RemoveId(old(order.items), id)
      ensures order.orderStatus == DeriveStatus(Statuses(order.items))
      ensures old(order.items) == [] || (|old(order.items)| == 1 && old(order.items)[0].id == id) ==>
        order.orderStatus == NOT_STARTED
      ensures order.writes == old(order.writes) +
        (if old(order.orderStatus) == order.orderStatus then [] else [StatusOnly(order.orderStatus)])
      ensures order.orderValue == old(order.orderValue) && order.discount == old(order.discount)
    {
      var parent := order;
      parent.items := RemoveId(parent.items, id);
      if |old(order.items)| == 1 && old(order.items)[0].id == id {
        RemovingEveryRowLeavesNotStarted(old(order.items), id);
      }
      parent.UpdateOrderStatus();
    }
  }
}
