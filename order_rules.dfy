/**
 * The pricing and status rules of the order models (orders/models.py), as
 * pure functions over the rows the item table holds for one order.
 *
 * Money fields are DecimalFields with two decimal places; here they are
 * whole numbers of cents.
 */
module OrderRules {
  import opened Wrappers

  // Codes of STATUS_CHOICES, shared by orders and their items.
  const NOT_STARTED := 1
  const IN_PROGRESS := 2
  const MADE := 3
  const DELIVERED := 4
  const STATUS_CHOICES: map<int, string> :=
    map[1 := "Not Started", 2 := "In Progress", 3 := "Made", 4 := "Delivered"]

  // Codes of PAID_CHOICES.
  const NOT_PAID := 1
  const FULLY_PAID := 2
  const PAID_CHOICES: map<int, string> := map[1 := "Not Paid", 2 := "Fully Paid"]

  // Codes of PRIORITY_CHOICES.
  const LOW := 1
  const MEDIUM := 2
  const HIGH := 3
  const PRIORITY_CHOICES: map<int, string> := map[1 := "Low", 2 := "Medium", 3 := "High"]

  /** An amount of money in cents. */
  type Cents = int

  /** A nullable decimal read as `x or 0`. */
  function OrZero(x: Option<Cents>): Cents
  {
    if x.Some? then x.value else 0
  }

  /** A stored order item, as the order's queries over its items see it. */
  datatype ItemRow = ItemRow(
    id: nat,
    itemStatus: int,
    basePrice: Cents,
    discount: Option<Cents>,
    itemValue: Cents,
    priorityLevel: int)

  /**
   * The value an item is saved with: its base price less its discount, a
   * missing price or discount counting as zero. Nothing clamps the result,
   * so a discount above the price gives a negative value.
   */
  function ItemValue(basePrice: Option<Cents>, discount: Option<Cents>): (v: Cents)
    ensures v + OrZero(discount) == OrZero(basePrice)
    ensures discount.None? ==> v == OrZero(basePrice)
    ensures v < 0 <==> OrZero(discount) > OrZero(basePrice)
    ensures OrZero(discount) >= 0 ==> v <= OrZero(basePrice)
  {
    OrZero(basePrice) - OrZero(discount)
  }

  /** A row whose value was derived by saving the item. */
  predicate Derived(row: ItemRow)
  {
    row.itemValue == ItemValue(Some(row.basePrice), row.discount)
  }

  /** No two rows share a primary key. */
  predicate UniqueIds(rows: seq<ItemRow>)
  {
    forall i, j :: 0 <= i < j < |rows| ==> rows[i].id != rows[j].id
  }

  // ---------------------------------------------------------------------
  // Totals

  function DiscountOf(row: ItemRow): Cents { OrZero(row.discount) }
  function ValueOf(row: ItemRow): Cents { row.itemValue }
  function BasePriceOf(row: ItemRow): Cents { row.basePrice }

  /** The sum of `f` over the rows, taken left to right. */
  function SumOf(rows: seq<ItemRow>, f: ItemRow -> Cents): Cents
  {
    if rows == [] then 0 else f(rows[0]) + SumOf(rows[1..], f)
  }

  /** The order's discount: the items' discounts, a null one counting as zero. */
  function OrderDiscount(rows: seq<ItemRow>): Cents { SumOf(rows, DiscountOf) }

  /** The order's value: the items' values. */
  function OrderValue(rows: seq<ItemRow>): Cents { SumOf(rows, ValueOf) }

  /** The items' base prices, before any discount. */
  function OrderBasePrice(rows: seq<ItemRow>): Cents { SumOf(rows, BasePriceOf) }

  lemma {:induction false} SumOfAppend(a: seq<ItemRow>, b: seq<ItemRow>, f: ItemRow -> Cents)
    ensures SumOf(a + b, f) == SumOf(a, f) + SumOf(b, f)
    decreases |a|
  {
    if a == [] {
      assert a + b == b;
    } else {
      assert (a + b)[1..] == a[1..] + b;
      SumOfAppend(a[1..], b, f);
    }
  }

  /** A sum over the rows does not depend on the order the rows come in. */
  lemma {:induction false} SumOfPermutation(a: seq<ItemRow>, b: seq<ItemRow>, f: ItemRow -> Cents)
    requires multiset(a) == multiset(b)
    ensures SumOf(a, f) == SumOf(b, f)
    decreases |a|
  {
    if a == [] {
      assert |b| == |multiset(b)| == 0;
    } else {
      var x := a[0];
      assert x in multiset(a);
      var k :| 0 <= k < |b| && b[k] == x;
      var rest := b[..k] + b[k + 1..];
      assert b == b[..k] + ([x] + b[k + 1..]);
      SumOfAppend(b[..k], [x] + b[k + 1..], f);
      SumOfAppend(b[..k], b[k + 1..], f);
      assert ([x] + b[k + 1..])[1..] == b[k + 1..];
      assert a == [x] + a[1..];
      assert multiset(a) == multiset{x} + multiset(a[1..]);
      assert multiset(b) == multiset(b[..k]) + multiset{x} + multiset(b[k + 1..]);
      assert multiset(rest) == multiset(b[..k]) + multiset(b[k + 1..]);
      assert multiset(a[1..]) == multiset(a) - multiset{x};
      assert multiset(rest) == multiset(b) - multiset{x};
      SumOfPermutation(a[1..], rest, f);
    }
  }

  /**
   * When every row was derived on save, the order's value and its discount
   * add up to the items' base prices.
   */
  lemma {:induction false} ValuePlusDiscountIsBasePrice(rows: seq<ItemRow>)
    requires forall k :: 0 <= k < |rows| ==> Derived(rows[k])
    ensures OrderValue(rows) + OrderDiscount(rows) == OrderBasePrice(rows)
    decreases |rows|
  {
    if rows != [] {
      assert Derived(rows[0]);
      ValuePlusDiscountIsBasePrice(rows[1..]);
    }
  }

  // ---------------------------------------------------------------------
  // Status

  /** The status codes of the rows, in row order (`values_list('item_status')`). */
  function Statuses(rows: seq<ItemRow>): (s: seq<int>)
    ensures |s| == |rows|
    ensures forall k :: 0 <= k < |rows| ==> s[k] == rows[k].itemStatus
  {
    if rows == [] then [] else [rows[0].itemStatus] + Statuses(rows[1..])
  }

  /** `all(status == c for status in statuses)` */
  predicate AllAre(statuses: seq<int>, c: int)
  {
    forall k :: 0 <= k < |statuses| ==> statuses[k] == c
  }

  /** `any(status == c for status in statuses)` */
  predicate AnyIs(statuses: seq<int>, c: int)
  {
    exists k :: 0 <= k < |statuses| && statuses[k] == c
  }

  /**
   * The order status derived from the item statuses: a first-match-wins
   * chain over "no items", "all not started", "all delivered", "all made",
   * "any in progress", with In Progress as the fallback.
   */
  function DeriveStatus(statuses: seq<int>): (r: int)
    ensures r in STATUS_CHOICES
  {
    if |statuses| == 0 then NOT_STARTED
    else if AllAre(statuses, NOT_STARTED) then NOT_STARTED
    else if AllAre(statuses, DELIVERED) then DELIVERED
    else if AllAre(statuses, MADE) then MADE
    else if AnyIs(statuses, IN_PROGRESS) then IN_PROGRESS
    else IN_PROGRESS
  }

  /** The distinct status codes present. */
  function Present(statuses: seq<int>): set<int>
  {
    set k | 0 <= k < |statuses| :: statuses[k]
  }

  /**
   * A reference definition of the status rule over the set of codes that
   * occur: one uniform status of Not Started, Made or Delivered is kept,
   * no items at all counts as Not Started, anything else is In Progress.
   */
  function StatusOfPresent(present: set<int>): int
  {
    if present == {} || present == {NOT_STARTED} then NOT_STARTED
    else if present == {DELIVERED} then DELIVERED
    else if present == {MADE} then MADE
    else IN_PROGRESS
  }

  lemma UniformIffPresentSingleton(statuses: seq<int>, c: int)
    requires |statuses| > 0
    ensures AllAre(statuses, c) <==> Present(statuses) == {c}
  {
    if AllAre(statuses, c) {
      assert statuses[0] in Present(statuses);
      forall x | x in Present(statuses) ensures x == c {
        var k :| 0 <= k < |statuses| && statuses[k] == x;
      }
    }
    if Present(statuses) == {c} {
      forall k | 0 <= k < |statuses| ensures statuses[k] == c {
        assert statuses[k] in Present(statuses);
      }
    }
  }

  /** The chain agrees with the reference definition on every input. */
  lemma DeriveStatusByPresent(statuses: seq<int>)
    ensures DeriveStatus(statuses) == StatusOfPresent(Present(statuses))
  {
    if |statuses| == 0 {
      assert Present(statuses) == {};
    } else {
      assert statuses[0] in Present(statuses);
      UniformIffPresentSingleton(statuses, NOT_STARTED);
      UniformIffPresentSingleton(statuses, DELIVERED);
      UniformIffPresentSingleton(statuses, MADE);
    }
  }

  /** Reordering the items does not change the derived order status. */
  lemma DeriveStatusPermutation(s: seq<int>, t: seq<int>)
    requires multiset(s) == multiset(t)
    ensures DeriveStatus(s) == DeriveStatus(t)
  {
    forall x ensures x in Present(s) <==> x in Present(t) {
      if x in Present(s) {
        var k :| 0 <= k < |s| && s[k] == x;
        assert x in multiset(t);
        var j :| 0 <= j < |t| && t[j] == x;
      }
      if x in Present(t) {
        var k :| 0 <= k < |t| && t[k] == x;
        assert x in multiset(s);
        var j :| 0 <= j < |s| && s[j] == x;
      }
    }
    assert Present(s) == Present(t);
    DeriveStatusByPresent(s);
    DeriveStatusByPresent(t);
  }

  /**
   * Two different statuses among the items always give In Progress, even
   * when none of them is In Progress: the rule is neither a minimum nor a
   * maximum of the item statuses.
   */
  lemma MixedStatusesAreInProgress(statuses: seq<int>, i: nat, j: nat)
    requires i < |statuses| && j < |statuses| && statuses[i] != statuses[j]
    ensures DeriveStatus(statuses) == IN_PROGRESS
  {
  }

  /** The fixed cases the status rule is known by. */
  lemma DeriveStatusExamples()
    ensures DeriveStatus([]) == NOT_STARTED
    ensures DeriveStatus([NOT_STARTED, NOT_STARTED]) == NOT_STARTED
    ensures DeriveStatus([DELIVERED, DELIVERED]) == DELIVERED
    ensures DeriveStatus([MADE, MADE]) == MADE
    ensures DeriveStatus([NOT_STARTED, IN_PROGRESS, MADE]) == IN_PROGRESS
    ensures DeriveStatus([NOT_STARTED, MADE]) == IN_PROGRESS
    ensures DeriveStatus([NOT_STARTED, DELIVERED]) == IN_PROGRESS
  {
    var twoNotStarted, twoDelivered, twoMade := [NOT_STARTED, NOT_STARTED], [DELIVERED, DELIVERED], [MADE, MADE];
    assert AllAre(twoNotStarted, NOT_STARTED);
    assert twoDelivered[0] == DELIVERED && AllAre(twoDelivered, DELIVERED);
    assert twoMade[0] == MADE && AllAre(twoMade, MADE);
    assert AnyIs([NOT_STARTED, IN_PROGRESS, MADE], IN_PROGRESS) by {
      assert [NOT_STARTED, IN_PROGRESS, MADE][1] == IN_PROGRESS;
    }
    MixedStatusesAreInProgress([NOT_STARTED, MADE], 0, 1);
    MixedStatusesAreInProgress([NOT_STARTED, DELIVERED], 0, 1);
  }

  // ---------------------------------------------------------------------
  // The item table

  /** The rows that remain once the row with primary key `id` is deleted. */
  function RemoveId(rows: seq<ItemRow>, id: nat): (r: seq<ItemRow>)
    ensures forall row :: row in r <==> row in rows && row.id != id
    ensures UniqueIds(rows) ==> UniqueIds(r)
    ensures multiset(r) <= multiset(rows)
  {
    if rows == [] then []
    else
      assert rows == [rows[0]] + rows[1..];
      var tail := RemoveId(rows[1..], id);
      if rows[0].id == id then tail
      else
      assert UniqueIds(rows) ==> forall row :: row in rows[1..] ==> row.id != rows[0].id;
      [rows[0]] + tail
  }

  /**
   * The rows after saving `row`: an existing row with the same primary key
   * is replaced where it stands, otherwise the row is added at the end.
   */
  function Upsert(rows: seq<ItemRow>, row: ItemRow): (r: seq<ItemRow>)
    ensures row in r
    ensures forall x :: x in r ==> x == row || x in rows
    ensures forall x :: x in rows && x.id != row.id ==> x in r
    ensures UniqueIds(rows) ==> UniqueIds(r) && forall x :: x in r && x.id == row.id ==> x == row
  {
    if rows == [] then [row]
    else if rows[0].id == row.id then
      assert UniqueIds(rows) ==> forall x :: x in rows[1..] ==> x.id != row.id;
      [row] + rows[1..]
    else
      var tail := Upsert(rows[1..], row);
      assert UniqueIds(rows) ==> forall x :: x in rows[1..] ==> x.id != rows[0].id;
      [rows[0]] + tail
  }

  /** Deleting the only remaining item leaves an order that is Not Started. */
  lemma {:induction false} RemovingEveryRowLeavesNotStarted(rows: seq<ItemRow>, id: nat)
    requires forall k :: 0 <= k < |rows| ==> rows[k].id == id
    ensures RemoveId(rows, id) == []
    ensures DeriveStatus(Statuses(RemoveId(rows, id))) == NOT_STARTED
    decreases |rows|
  {
    if rows != [] {
      RemovingEveryRowLeavesNotStarted(rows[1..], id);
    }
  }

  /**
   * The totals and the derived status depend only on which rows the order
   * has, not on the order the store returns them in.
   */
  lemma RowOrderIsIrrelevant(a: seq<ItemRow>, b: seq<ItemRow>)
    requires multiset(a) == multiset(b)
    ensures OrderDiscount(a) == OrderDiscount(b)
    ensures OrderValue(a) == OrderValue(b)
    ensures DeriveStatus(Statuses(a)) == DeriveStatus(Statuses(b))
  {
    SumOfPermutation(a, b, DiscountOf);
    SumOfPermutation(a, b, ValueOf);
    forall x ensures x in Present(Statuses(a)) <==> x in Present(Statuses(b)) {
      if x in Present(Statuses(a)) {
        var k :| 0 <= k < |a| && Statuses(a)[k] == x;
        assert a[k] in multiset(b);
        var j :| 0 <= j < |b| && b[j] == a[k];
        assert Statuses(b)[j] == x;
      }
      if x in Present(Statuses(b)) {
        var k :| 0 <= k < |b| && Statuses(b)[k] == x;
        assert b[k] in multiset(a);
        var j :| 0 <= j < |a| && a[j] == b[k];
        assert Statuses(a)[j] == x;
      }
    }
    assert Present(Statuses(a)) == Present(Statuses(b));
    DeriveStatusByPresent(Statuses(a));
    DeriveStatusByPresent(Statuses(b));
  }
}
