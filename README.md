# Order pricing, status aggregation and table formatters

A Dafny model of the core of an order-management application for a
made-to-order workshop. It covers two parts:

- **The order models** (`orders/models.py`). An item's value is its base
  price less its discount. An order's totals are sums over its items. An
  order's status (Not Started, In Progress, Made, Delivered) is derived
  from its items' statuses by a first-match-wins rule. The model also
  covers the save and delete hooks that run these computations.
- **Three string builders** from the front-end utilities
  (`staticfiles/js/utils.769c4292ad42.js`). One groups the characters
  of a number's text in threes from the right, with commas between the
  groups. One builds the `<option>` tags of a select. One
  builds the `<ul>` list of an item's options or component finishes.

Money is a whole number of cents, because every money field is a decimal
with two places. The item table is modelled in memory: `Order.items`
holds the stored rows (`ItemRow`) of the order's items. `Order.writes`
records the writes the order issues for its own row: a full save, or an
update of the status field alone. An `OrderItem` object is the in-memory
instance, and its fields reach the table only when it is saved.

Files:

- `wrappers.dfy`: the `Option` type.
- `order_rules.dfy`: module `OrderRules`. It holds the status, paid and
  priority codes, item value, totals, the status rule and the row-table
  helpers, all as pure functions with their lemmas.
- `order_models.dfy`: module `OrderModels`. It holds the classes `Order`
  and `OrderItem` and their methods.
- `thousands_separator.dfy`: module `ThousandsSeparator`.
- `markup.dfy`: module `Markup`. It holds the two HTML builders and a
  reader for each, used to state round trips.

The model follows `orders/models.py` as written:

- The order's totals are recomputed only by `Order.save` on an order
  that already has a primary key. Saving an item leaves its order
  untouched. Deleting an item recomputes the order's status but not its
  totals. So `order_value` and `discount` equal the item sums only after
  the next order save, not after every item change.
- The order status is recomputed only when an item is deleted, not when
  one is created or updated.
- `item_value` is never clamped. The non-negativity validators on
  `base_price` and `discount` do not run on `save`, so a discount above
  the price gives a negative value.
- `Order.save` tests `if self.pk:`, so an order whose key is 0 counts as
  unsaved there: its save never recomputes the totals (but it keeps its
  key).
- The item `completed` flag, its re-evaluation when `paid` changes, and
  the configuration signature are not implemented in the files modelled.
  The tests refer to `completed` (orders/test_order_item_view.py:35).
  They are not modelled.

## Model

| member | source | states |
|---|---|---|
| `OrderRules.ItemValue` | orders/models.py:141-147 | value plus discount equals base price, with a null discount or price counting as zero; a null discount leaves the price unchanged; the value is negative exactly when the discount exceeds the price (no clamping); a non-negative discount never raises the value above the price |
| `OrderRules.SumOfPermutation` | orders/models.py:53-56 | a sum over an order's items is the same for every order of the rows with the same multiset |
| `OrderRules.ValuePlusDiscountIsBasePrice` | orders/models.py:55-56 | when every row's value was derived on save, the order value plus the order discount equals the sum of the base prices |
| `OrderRules.DeriveStatus` | orders/models.py:62-81 | the derived status is always one of the four codes of STATUS_CHOICES |
| `OrderRules.DeriveStatusByPresent` | orders/models.py:62-81 | the first-match-wins chain agrees on every input with an independent rule over the set of codes present: no items or only Not Started gives 1, only Delivered gives 4, only Made gives 3, anything else gives 2 |
| `OrderRules.UniformIffPresentSingleton` | orders/models.py:68-74 | for a non-empty list, "all statuses equal c" holds exactly when c is the only code present |
| `OrderRules.DeriveStatusPermutation` | orders/models.py:62-81 | reordering the item statuses (same multiset) gives the same order status |
| `OrderRules.MixedStatusesAreInProgress` | orders/models.py:76-81 | any two different item statuses give In Progress, even with no item In Progress, so the rule is neither a min nor a max |
| `OrderRules.DeriveStatusExamples` | orders/models.py:65-81 | [] and [1,1] give 1, [4,4] gives 4, [3,3] gives 3, and [1,2,3], [1,3] and [1,4] give 2 |
| `OrderRules.RemoveId` | orders/models.py:155 | after the delete, the rows left are exactly the earlier rows with another key; unique keys stay unique; no row is added |
| `OrderRules.Upsert` | orders/models.py:147 | after saving a row, it is stored, every other-keyed row stays, nothing else appears, and with unique keys the saved row is the only one with its key |
| `OrderRules.RemovingEveryRowLeavesNotStarted` | orders/models.py:153-157 | deleting the rows of the last remaining item leaves no rows and the status Not Started |
| `OrderRules.RowOrderIsIrrelevant` | orders/models.py:53-81 | the order discount, the order value and the derived status depend only on the multiset of stored rows, not on the order the query returns them in |
| `OrderModels.Order.constructor` | orders/models.py:21-45 | a new order has no primary key and no items, discount and value 0, status Not Started, and the given deposit and paid code |
| `OrderModels.Order.CalculateTotals` | orders/models.py:49-56 | with items, discount becomes the sum of item discounts (null as 0) and order value the sum of item values, and the two add up to the base prices; with no items, both keep their previous values; nothing else changes |
| `OrderModels.Order.UpdateOrderStatus` | orders/models.py:58-87 | the status becomes the derived one, and exactly one status-only write is issued when it changed, none otherwise; no other field changes |
| `OrderModels.UpdateOrderStatusTwice` | orders/models.py:84-87 | calling the status update twice in a row issues at most the first call's write; the second changes nothing |
| `OrderModels.Order.Save` | orders/models.py:91-96 | an order whose primary key is truthy (present and not 0) recomputes its totals before the full write; a first save only takes the new key and keeps the totals; an order under key 0 keeps its key and its totals; one full write is issued either way |
| `OrderModels.KeyZeroNeverRecomputes` | orders/models.py:91-96 | an order saved under key 0, given an item of price 500 and discount 100 and saved again, still has value 0, while the same steps under key 1 give 400 |
| `OrderModels.OrderItem.constructor` | orders/models.py:104-139 | a new item holds its order, key, price, discount, status and priority, and has no value yet |
| `OrderModels.OrderItem.Save` | orders/models.py:141-147 | the item value becomes base price less discount (nulls as 0); the row is stored exactly when the price is non-null and the order has a key, and then replaces the row with the same key or is appended; the order's status, totals and writes are untouched; the store invariant is kept |
| `OrderModels.OrderItem.Delete` | orders/models.py:153-157 | the item's row is removed, then the order's status is derived from the remaining rows, with a status-only write only if it changed; deleting the last item gives Not Started; totals are not recomputed |
| `ThousandsSeparator.FormatWithThousandsSeparator` | staticfiles/js/utils.769c4292ad42.js:383-392 | the loop's result equals the characters of the number's text, grouped in threes from the right and joined with commas |
| `ThousandsSeparator.ReversedChunk` | staticfiles/js/utils.769c4292ad42.js:385-388 | a chunk of the reversed text, reversed back, is the slice of the text that ends the same distance from its end |
| `ThousandsSeparator.GroupsCover` | staticfiles/js/utils.769c4292ad42.js:387-391 | the groups, concatenated in order, give back the text |
| `ThousandsSeparator.GroupsSizes` | staticfiles/js/utils.769c4292ad42.js:387-391 | there are ceil(n/3) groups; for a non-empty text the first has 1 to 3 characters and every later one exactly 3 |
| `ThousandsSeparator.SeparatorsEraseToInput` | staticfiles/js/utils.769c4292ad42.js:384-391 | deleting every comma from the formatted text gives back the comma-free input |
| `ThousandsSeparator.SeparatorCount` | staticfiles/js/utils.769c4292ad42.js:387-391 | a comma-free input of n >= 1 characters gets exactly ceil(n/3) - 1 commas |
| `ThousandsSeparator.ShortTextUnchanged` | staticfiles/js/utils.769c4292ad42.js:387-391 | an input of at most three characters comes back unchanged |
| `ThousandsSeparator.SignIsGrouped` | staticfiles/js/utils.769c4292ad42.js:383-392 | a minus sign is grouped like a digit: -123 gives "-,123" |
| `ThousandsSeparator.PointIsGrouped` | staticfiles/js/utils.769c4292ad42.js:383-392 | a decimal point is grouped like a digit: 1234.5 gives "123,4.5" |
| `Markup.GenerateSelectOptions` | staticfiles/js/utils.769c4292ad42.js:178-184 | the loop's result is the concatenation of one option tag per choice, in entry order |
| `Markup.OptionTagRoundTrip` | staticfiles/js/utils.769c4292ad42.js:181 | reading one option tag back gives its value, its text, and `selected` exactly when the value equals the selected value, and leaves what followed |
| `Markup.SelectOptionsRoundTrip` | staticfiles/js/utils.769c4292ad42.js:178-184 | reading the options back gives exactly one option per choice, in entry order, each with its value and text, marked selected exactly when its value equals the selected value |
| `Markup.GenerateOptionsList` | staticfiles/js/utils.769c4292ad42.js:187-204 | the loop's result is a dash when data is missing or empty, and otherwise the list head, one `<li>` per entry and `</ul>` |
| `Markup.ListItemsRoundTrip` | staticfiles/js/utils.769c4292ad42.js:192-201 | reading the `<li>` elements back gives one text per entry, in order: the component finish display, the value or the name, according to the list type |
| `Markup.OptionsListRoundTrip` | staticfiles/js/utils.769c4292ad42.js:187-204 | reading the list back gives a dash for missing or empty data, and otherwise the class `{type}-list list-unstyled mb-0 lh-sm` and the entries' texts in order |
| `Markup.DashExactlyWithoutData` | staticfiles/js/utils.769c4292ad42.js:188-190 | the result is `-` exactly when data is missing or empty |

## Left out

- Persistence: querysets, `exists()`, `values_list`, transactions and
  cascade deletes (including an item's component-finish rows) are
  modelled only as the in-memory row list and the write log.
- `OrderModels.OrderItem.Delete`: the source derives the status on the
  item's cached `self.order` instance (orders/models.py:154). That
  instance can be stale against the stored order row, or be another
  instance of the same order. The model has one `Order` object per
  order, so the in-memory state and the stored state are the same, and
  such staleness is not captured.
- Django refuses to query or partly save an order that has never been
  saved. `Order.UpdateOrderStatus` does not model that error; such an
  order has no rows in the model.
- Primary keys come from the store. `Order.Save` takes the new key as a
  parameter, and `OrderItem` receives its key when constructed.
- Fields the core computations do not read are left out. These are the
  client, product, option values, product finish and the timestamps.
  `__str__` is left out as presentation.
- `max_digits=10` overflow is left out, because the database enforces
  it. The `MinValueValidator`s are left out, because they run only in
  form validation.
- `ThousandsSeparator.FormatWithThousandsSeparator`: takes the text of
  the number instead of the number, because `toString` is a JavaScript
  built-in. Its properties are stated for comma-free text, and a number's
  text never holds a comma. Negative and non-integer numbers come out
  mis-grouped, because the sign and the decimal point are grouped with
  the digits. The model reproduces this.
- `Markup.GenerateSelectOptions`: the choices are given as the sequence
  of `Object.entries`. Values and the selected value are both strings, so
  JavaScript's loose `==` coercion is not modelled.
- `Markup.SelectOptionsRoundTrip`: proved only for values without `"` and
  texts without `<`. The builder does not escape HTML, so other inputs
  cannot be read back unambiguously.
- `Markup.OptionTagRoundTrip`: proved only for a value without `"` and a
  text without `<`, for the same reason.
- `Markup.OptionsListRoundTrip`: proved only for a type without `"` and
  entry texts without `<`, for the same reason.
- `Markup.ListItemsRoundTrip`: proved only for entry texts without `<`,
  for the same reason.
- `Markup.GenerateOptionsList`: a JavaScript entry missing a field shows
  `undefined`; here every entry has all three fields. Each branch picks
  the shown text before the `<li>` is appended, which gives the same
  string as appending in each branch.
- The remaining UI and AJAX helpers in the same JavaScript file are left
  out, because they are DOM and network code.
