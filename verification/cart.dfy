/**
 * The shopping cart of `CartContext.js`: a sequence of lines with four
 * transitions (`addToCart`, `removeFromCart`, `updateQuantity`, `clearCart`)
 * and two aggregates (`calculateTotal` and the `cartCount` reduction).
 * Every transition is a pure function from the previous cart to the next.
 */
module Cart {
  import opened Wrappers
  import opened Bikes
  import Seqs

  datatype CartLine = CartLine(id: int, brand: string, model: string, price: int,
                               imageUrl: Option<string>, quantity: int)

  type Cart = seq<CartLine>

  /** Some line of the cart has identifier `id`. */
  ghost predicate HasId(cart: Cart, id: int) {
    exists i :: 0 <= i < |cart| && cart[i].id == id
  }

  /** No identifier occurs on two lines. */
  ghost predicate DistinctIds(cart: Cart) {
    forall i, j :: 0 <= i < j < |cart| ==> cart[i].id != cart[j].id
  }

  /** The invariant the four transitions keep: distinct identifiers, every quantity at least 1. */
  ghost predicate Valid(cart: Cart) {
    DistinctIds(cart) && forall i :: 0 <= i < |cart| ==> cart[i].quantity >= 1
  }

  /** Σ price × quantity over the lines: what `calculateTotal` is meant to return. */
  function Total(cart: Cart): int {
    if |cart| == 0 then 0 else cart[0].price * cart[0].quantity + Total(cart[1..])
  }

  /** Σ quantity over the lines: what `cartCount` is meant to hold. */
  function Count(cart: Cart): int {
    if |cart| == 0 then 0 else cart[0].quantity + Count(cart[1..])
  }

  /** `cart.findIndex(item => item.id === id)`: the first matching position, or -1. */
  function FindIndex(cart: Cart, id: int): (r: int)
    ensures -1 <= r < |cart|
    ensures r >= 0 ==> cart[r].id == id
    ensures r >= 0 ==> forall j :: 0 <= j < r ==> cart[j].id != id
    ensures r == -1 <==> !HasId(cart, id)
  {
    if |cart| == 0 then -1
    else if cart[0].id == id then 0
    else
      var k := FindIndex(cart[1..], id);
      assert forall j :: 1 <= j < |cart| ==> cart[j] == cart[1..][j - 1];
      if k < 0 then -1 else k + 1
  }

  /** The line `addToCart` appends for a motorbike not yet in the cart. */
  function NewLine(bike: Bike): CartLine {
    CartLine(bike.id, bike.brand, bike.model, bike.price, bike.imageUrl, 1)
  }

  /**
   * `addToCart(motorbike)`: one more of a motorbike already in the cart
   * (the first line with its id), otherwise a new line with quantity 1.
   */
  function AddToCart(cart: Cart, bike: Bike): (r: Cart)
    ensures !HasId(cart, bike.id) ==>
      |r| == |cart| + 1 && r[..|cart|] == cart && r[|cart|] == NewLine(bike)
    ensures HasId(cart, bike.id) ==>
      |r| == |cart| &&
      var k := FindIndex(cart, bike.id);
      r[k] == cart[k].(quantity := cart[k].quantity + 1) &&
      forall i :: 0 <= i < |cart| && i != k ==> r[i] == cart[i]
  {
    var k := FindIndex(cart, bike.id);
    if k >= 0 then cart[k := cart[k].(quantity := cart[k].quantity + 1)]
    else cart + [NewLine(bike)]
  }

  /** The predicate `item => item.id !== id` that `removeFromCart` filters by. */
  function OtherThan(id: int): CartLine -> bool {
    (l: CartLine) => l.id != id
  }

  /** `removeFromCart(id)`: keep the lines whose id differs, in order. */
  function RemoveFromCart(cart: Cart, id: int): (r: Cart)
    ensures forall i :: 0 <= i < |r| ==> r[i].id != id
    ensures forall l :: l in r <==> l in cart && l.id != id
    ensures Seqs.IsSubsequence(r, cart)
    ensures forall l :: multiset(r)[l] == if l.id != id then multiset(cart)[l] else 0
    ensures !HasId(cart, id) ==> r == cart
  {
    var p := OtherThan(id);
    Seqs.FilterSpec(cart, p);
    if FindIndex(cart, id) < 0 then
      Seqs.FilterKeepsAll(cart, p);
      Seqs.Filter(cart, p)
    else Seqs.Filter(cart, p)
  }

  /** The line `updateQuantity` produces for a matching line: never below 1. */
  function Adjust(line: CartLine, change: int): CartLine {
    line.(quantity := if line.quantity + change > 1 then line.quantity + change else 1)
  }

  /** `updateQuantity(id, change)`: `Math.max(1, quantity + change)` on the matching lines. */
  function UpdateQuantity(cart: Cart, id: int, change: int): (r: Cart)
    ensures |r| == |cart|
    ensures forall i :: 0 <= i < |cart| ==> r[i].id == cart[i].id
    ensures forall i :: 0 <= i < |cart| && cart[i].id != id ==> r[i] == cart[i]
    ensures forall i :: 0 <= i < |cart| && cart[i].id == id ==>
      r[i] == cart[i].(quantity := r[i].quantity) &&
      r[i].quantity >= 1 && r[i].quantity >= cart[i].quantity + change &&
      (r[i].quantity == 1 || r[i].quantity == cart[i].quantity + change)
  {
    Seqs.Map(cart, (l: CartLine) => if l.id == id then Adjust(l, change) else l)
  }

  /** `clearCart()`. */
  function ClearCart(): (r: Cart)
    ensures |r| == 0 && Valid(r) && Total(r) == 0 && Count(r) == 0
  {
    []
  }

  /** The transitions of the cart, as the provider exposes them. */
  datatype Op = Add(bike: Bike) | Remove(id: int) | Update(id: int, change: int) | Clear

  function Apply(cart: Cart, op: Op): Cart {
    match op
    case Add(b) => AddToCart(cart, b)
    case Remove(id) => RemoveFromCart(cart, id)
    case Update(id, change) => UpdateQuantity(cart, id, change)
    case Clear => ClearCart()
  }

  function ApplyAll(cart: Cart, ops: seq<Op>): Cart
    decreases |ops|
  {
    if |ops| == 0 then cart else ApplyAll(Apply(cart, ops[0]), ops[1..])
  }

  // ---------------------------------------------------------------------------
  // The invariant
  // ---------------------------------------------------------------------------

  lemma AddToCartValid(cart: Cart, bike: Bike)
    requires Valid(cart)
    ensures Valid(AddToCart(cart, bike))
  {
    var r := AddToCart(cart, bike);
    if !HasId(cart, bike.id) {
      assert forall i :: 0 <= i < |cart| ==> r[i] == cart[i];
    }
  }

  lemma RemoveFromCartValid(cart: Cart, id: int)
    requires Valid(cart)
    ensures Valid(RemoveFromCart(cart, id))
  {
    var r := RemoveFromCart(cart, id);
    Seqs.SubsequenceDistinct(r, cart);
    forall i, j | 0 <= i < j < |r|
      ensures r[i].id != r[j].id
    {
      var a, b := r[i], r[j];
      assert a in cart && b in cart;
      var x :| 0 <= x < |cart| && cart[x] == a;
      var y :| 0 <= y < |cart| && cart[y] == b;
      assert a != b;
    }
  }

  lemma UpdateQuantityValid(cart: Cart, id: int, change: int)
    requires Valid(cart)
    ensures Valid(UpdateQuantity(cart, id, change))
  {
  }

  /** From any valid cart, any sequence of transitions leads to a valid cart. */
  lemma {:induction false} ApplyAllValid(cart: Cart, ops: seq<Op>)
    requires Valid(cart)
    ensures Valid(ApplyAll(cart, ops))
    decreases |ops|
  {
    if |ops| > 0 {
      match ops[0] {
        case Add(b) => AddToCartValid(cart, b);
        case Remove(id) => RemoveFromCartValid(cart, id);
        case Update(id, change) => UpdateQuantityValid(cart, id, change);
        case Clear =>
      }
      ApplyAllValid(Apply(cart, ops[0]), ops[1..]);
    }
  }

  // ---------------------------------------------------------------------------
  // The aggregates
  // ---------------------------------------------------------------------------

  lemma {:induction false} TotalAppend(a: Cart, b: Cart)
    ensures Total(a + b) == Total(a) + Total(b)
    ensures Count(a + b) == Count(a) + Count(b)
  {
    if |a| > 0 {
      TotalAppend(a[1..], b);
      assert (a + b)[1..] == a[1..] + b;
    } else {
      assert a + b == b;
    }
  }

  /**
   * `calculateTotal()`: `cartItems.reduce((total, item) => total + item.price * item.quantity, 0)`,
   * a left-to-right accumulation.
   */
  method CalculateTotal(cart: Cart) returns (total: int)
    ensures total == Total(cart)
  {
    total := 0;
    var i := 0;
    while i < |cart|
      invariant 0 <= i <= |cart|
      invariant total == Total(cart[..i])
    {
      TotalAppend(cart[..i], [cart[i]]);
      assert cart[..i + 1] == cart[..i] + [cart[i]];
      total := total + cart[i].price * cart[i].quantity;
      i := i + 1;
    }
    assert cart[..i] == cart;
  }

  /** `cartCount`: `cartItems.reduce((total, item) => total + item.quantity, 0)`. */
  method CartCount(cart: Cart) returns (count: int)
    ensures count == Count(cart)
  {
    count := 0;
    var i := 0;
    while i < |cart|
      invariant 0 <= i <= |cart|
      invariant count == Count(cart[..i])
    {
      TotalAppend(cart[..i], [cart[i]]);
      assert cart[..i + 1] == cart[..i] + [cart[i]];
      count := count + cart[i].quantity;
      i := i + 1;
    }
    assert cart[..i] == cart;
  }

  /** Replacing one line changes the aggregates by the difference of the two lines. */
  lemma {:induction false} TotalUpdate(cart: Cart, k: int, line: CartLine)
    requires 0 <= k < |cart|
    ensures Total(cart[k := line]) == Total(cart) - cart[k].price * cart[k].quantity + line.price * line.quantity
    ensures Count(cart[k := line]) == Count(cart) - cart[k].quantity + line.quantity
  {
    var r := cart[k := line];
    assert cart == cart[..k] + [cart[k]] + cart[k + 1..];
    assert r == cart[..k] + [line] + cart[k + 1..];
    TotalAppend(cart[..k] + [cart[k]], cart[k + 1..]);
    TotalAppend(cart[..k], [cart[k]]);
    TotalAppend(cart[..k] + [line], cart[k + 1..]);
    TotalAppend(cart[..k], [line]);
  }

  /** One more unit: the count grows by 1 and the total by the unit price of that line. */
  lemma AddToCartAggregates(cart: Cart, bike: Bike)
    ensures Count(AddToCart(cart, bike)) == Count(cart) + 1
    ensures HasId(cart, bike.id) ==>
      Total(AddToCart(cart, bike)) == Total(cart) + cart[FindIndex(cart, bike.id)].price
    ensures !HasId(cart, bike.id) ==>
      Total(AddToCart(cart, bike)) == Total(cart) + bike.price
  {
    var k := FindIndex(cart, bike.id);
    if k >= 0 {
      var line := cart[k].(quantity := cart[k].quantity + 1);
      assert AddToCart(cart, bike) == cart[k := line];
      TotalUpdate(cart, k, line);
      MulSucc(cart[k].price, cart[k].quantity);
    } else {
      assert AddToCart(cart, bike) == cart + [NewLine(bike)];
      TotalAppend(cart, [NewLine(bike)]);
    }
  }

  lemma MulSucc(a: int, b: int)
    ensures a * (b + 1) == a * b + a
  {
  }

  /** In a cart with distinct ids, removing the id of line `k` removes exactly that line. */
  lemma RemoveFromCartOne(cart: Cart, id: int, k: int)
    requires DistinctIds(cart) && 0 <= k < |cart| && cart[k].id == id
    ensures RemoveFromCart(cart, id) == cart[..k] + cart[k + 1..]
  {
    assert RemoveFromCart(cart, id) == Seqs.Filter(cart, OtherThan(id));
    FilterOtherThanOne(cart, id, k);
  }

  lemma {:induction false} FilterOtherThanOne(cart: Cart, id: int, k: int)
    requires DistinctIds(cart) && 0 <= k < |cart| && cart[k].id == id
    ensures Seqs.Filter(cart, OtherThan(id)) == cart[..k] + cart[k + 1..]
  {
    var p := OtherThan(id);
    if k == 0 {
      assert forall i :: 0 <= i < |cart[1..]| ==> p(cart[1..][i]) by {
        forall i | 0 <= i < |cart[1..]|
          ensures p(cart[1..][i])
        {
          assert cart[1..][i] == cart[i + 1];
        }
      }
      Seqs.FilterKeepsAll(cart[1..], p);
    } else {
      FilterOtherThanOne(cart[1..], id, k - 1);
      assert cart[1..][..k - 1] + cart[1..][k..] == cart[1..k] + cart[k + 1..];
      assert cart[..k] == [cart[0]] + cart[1..k];
    }
  }

  /** Removing the one line with `id` from a cart with distinct ids subtracts exactly that line. */
  lemma RemoveFromCartAggregates(cart: Cart, id: int, k: int)
    requires DistinctIds(cart) && 0 <= k < |cart| && cart[k].id == id
    ensures |RemoveFromCart(cart, id)| == |cart| - 1
    ensures Total(RemoveFromCart(cart, id)) == Total(cart) - cart[k].price * cart[k].quantity
    ensures Count(RemoveFromCart(cart, id)) == Count(cart) - cart[k].quantity
  {
    RemoveFromCartOne(cart, id, k);
    TotalDelete(cart, k);
  }

  /** Deleting line `k` subtracts exactly that line from the aggregates. */
  lemma {:induction false} TotalDelete(cart: Cart, k: int)
    requires 0 <= k < |cart|
    ensures Total(cart[..k] + cart[k + 1..]) == Total(cart) - cart[k].price * cart[k].quantity
    ensures Count(cart[..k] + cart[k + 1..]) == Count(cart) - cart[k].quantity
  {
    if k == 0 {
      assert cart[..0] + cart[1..] == cart[1..];
    } else {
      var tail := cart[1..];
      TotalDelete(tail, k - 1);
      var d := tail[..k - 1] + tail[k..];
      assert cart[..k] + cart[k + 1..] == [cart[0]] + d;
      assert ([cart[0]] + d)[1..] == d;
    }
  }

  /**
   * Changing the quantity of the one line with `id` in a valid cart moves the
   * count by the clamped change, and the total by that much times its price.
   */
  lemma {:induction false} UpdateQuantityAggregates(cart: Cart, id: int, change: int, k: int)
    requires DistinctIds(cart) && 0 <= k < |cart| && cart[k].id == id
    ensures var q := if cart[k].quantity + change > 1 then cart[k].quantity + change else 1;
      Count(UpdateQuantity(cart, id, change)) == Count(cart) - cart[k].quantity + q &&
      Total(UpdateQuantity(cart, id, change)) == Total(cart) + cart[k].price * (q - cart[k].quantity)
  {
    var r := UpdateQuantity(cart, id, change);
    assert r == cart[k := Adjust(cart[k], change)];
    TotalUpdate(cart, k, Adjust(cart[k], change));
  }

  /** Updating an id the cart does not hold changes nothing. */
  lemma UpdateQuantityAbsent(cart: Cart, id: int, change: int)
    requires !HasId(cart, id)
    ensures UpdateQuantity(cart, id, change) == cart
  {
  }

  /** Removing a motorbike just added to a cart that did not hold it restores the cart. */
  lemma RemoveUndoesAdd(cart: Cart, bike: Bike)
    requires !HasId(cart, bike.id)
    ensures RemoveFromCart(AddToCart(cart, bike), bike.id) == cart
  {
    var p := OtherThan(bike.id);
    assert AddToCart(cart, bike) == cart + [NewLine(bike)];
    Seqs.FilterAppend(cart, [NewLine(bike)], p);
    Seqs.FilterKeepsAll(cart, p);
    assert Seqs.Filter([NewLine(bike)], p) == [];
  }

  /** In a valid cart holding the motorbike, adding it again is the "+1" of `updateQuantity`. */
  lemma AddToCartIsIncrement(cart: Cart, bike: Bike)
    requires Valid(cart) && HasId(cart, bike.id)
    ensures AddToCart(cart, bike) == UpdateQuantity(cart, bike.id, 1)
  {
    var a, u := AddToCart(cart, bike), UpdateQuantity(cart, bike.id, 1);
    assert forall i :: 0 <= i < |cart| ==> a[i] == u[i];
  }
}
