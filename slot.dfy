/** A vending slot `Slot`: a code, a capacity, the product it sells, an
    optional price override and a FIFO queue of item tokens. */
module Slots {
  import opened Failures
  import opened Text
  import opened Products

  /** The token the C# code enqueues for every physical item. */
  const Token: int := 1

  /** A queue holding n items. */
  function Tokens(n: nat): (q: seq<int>)
    ensures |q| == n
    ensures forall i :: 0 <= i < n ==> q[i] == Token
  {
    seq(n, _ => Token)
  }

  /** Putting a + b items in a queue is putting a items and then b more. */
  lemma TokensAppend(a: nat, b: nat)
    ensures Tokens(a) + Tokens(b) == Tokens(a + b)
  {
    assert forall i :: 0 <= i < a + b ==> (Tokens(a) + Tokens(b))[i] == Tokens(a + b)[i];
  }

  /** The first failing check of the `Slot` constructor, in source order, or
      None when every check passes. A missing product is `None`. */
  function SlotError(code: string, capacity: int, initialQuantity: int,
                     product: Option<ProductType>, priceOverride: Option<int>): (e: Option<Error>)
    ensures e == None <==>
              && !IsNullOrWhiteSpace(code) && capacity > 0
              && 0 <= initialQuantity <= capacity
              && product.Some?
              && (priceOverride.Some? ==> priceOverride.value >= 0)
    ensures IsNullOrWhiteSpace(code) ==> e == Some(InvalidArgument("code"))
    ensures !IsNullOrWhiteSpace(code) && capacity <= 0 ==> e == Some(InvalidArgument("capacity"))
    ensures (!IsNullOrWhiteSpace(code) && capacity > 0 && initialQuantity < 0)
              ==> e == Some(InvalidArgument("initialQuantity"))
    ensures (!IsNullOrWhiteSpace(code) && 0 < capacity < initialQuantity)
              ==> e == Some(CapacityExceeded)
    ensures (!IsNullOrWhiteSpace(code) && capacity > 0 && 0 <= initialQuantity <= capacity && product.None?)
              ==> e == Some(InvalidArgument("product"))
    ensures (&& !IsNullOrWhiteSpace(code) && capacity > 0 && 0 <= initialQuantity <= capacity && product.Some?
             && priceOverride.Some? && priceOverride.value < 0)
              ==> e == Some(InvalidArgument("priceOverride"))
  {
    if IsNullOrWhiteSpace(code) then Some(InvalidArgument("code"))
    else if capacity <= 0 then Some(InvalidArgument("capacity"))
    else if initialQuantity < 0 then Some(InvalidArgument("initialQuantity"))
    else if initialQuantity > capacity then Some(CapacityExceeded)
    else if product.None? then Some(InvalidArgument("product"))
    else if priceOverride.Some? && priceOverride.value < 0 then Some(InvalidArgument("priceOverride"))
    else None
  }

  class Slot {
    const code: string
    const capacity: int
    const product: ProductType
    var priceOverride: Option<int>
    /** `itemQueue`: one token per item, oldest first. */
    var items: seq<int>

    /** What the constructor establishes and every operation keeps. */
    ghost predicate Valid()
      reads this
    {
      && !IsNullOrWhiteSpace(code)
      && capacity > 0
      && product.Valid()
      && (priceOverride.Some? ==> priceOverride.value >= 0)
      && |items| <= capacity
      && items == Tokens(|items|)
    }

    /** `Quantity`: the number of items in the queue. */
    function Quantity(): (q: nat)
      reads this
      ensures q == |items|
    {
      |items|
    }

    /** The constructor once its checks have passed: the properties are the
        arguments and the queue holds `initialQuantity` items. */
    constructor (code: string, capacity: int, initialQuantity: int,
                 product: ProductType, priceOverride: Option<int>)
      requires SlotError(code, capacity, initialQuantity, Some(product), priceOverride) == None
      requires product.Valid()
      ensures Valid()
      ensures this.code == code && this.capacity == capacity && this.product == product
      ensures this.priceOverride == priceOverride
      ensures items == Tokens(initialQuantity)
    {
      this.code := code;
      this.capacity := capacity;
      this.product := product;
      this.priceOverride := priceOverride;
      new;
      items := [];
      var itemIndex := 0;
      while itemIndex < initialQuantity
        invariant 0 <= itemIndex <= initialQuantity
        invariant items == Tokens(itemIndex)
        invariant this.priceOverride == priceOverride
      {
        TokensAppend(itemIndex, 1);
        items := items + [Token];
        itemIndex := itemIndex + 1;
      }
    }

    /** `HasStock`: true exactly when at least one item is in the queue. */
    function HasStock(): (b: bool)
      reads this
      ensures b <==> Quantity() > 0
    {
      |items| > 0
    }

    /** `GetPrice`: the override when one is set, the product's base price
        otherwise; a valid slot never charges a negative price. */
    function GetPrice(): (p: int)
      reads this
      ensures priceOverride.Some? ==> p == priceOverride.value
      ensures priceOverride.None? ==> p == product.basePrice
      ensures Valid() ==> p >= 0
    {
      if priceOverride.Some? then priceOverride.value else product.basePrice
    }

    /** `RemoveOne`: an empty queue fails with OutOfStock and changes nothing;
        otherwise the oldest item leaves the queue. */
    method RemoveOne() returns (o: Outcome)
      requires Valid()
      modifies this
      ensures Valid()
      ensures priceOverride == old(priceOverride)
      ensures old(|items|) == 0 ==> o == Fail(OutOfStock) && unchanged(this)
      ensures old(|items|) > 0 ==> o == Pass && items == old(items)[1..]
      ensures old(|items|) > 0 ==> Quantity() == old(Quantity()) - 1
    {
      if |items| == 0 {
        return Fail(OutOfStock);
      }
      items := items[1..];
      o := Pass;
    }

    /** `Refill`: a negative count, or one that would take the queue past its
        capacity, fails and changes nothing; otherwise `count` items join the
        end of the queue. */
    method Refill(count: int) returns (o: Outcome)
      requires Valid()
      modifies this
      ensures Valid()
      ensures priceOverride == old(priceOverride)
      ensures count < 0 ==> o == Fail(InvalidArgument("count")) && unchanged(this)
      ensures count >= 0 && old(|items|) + count > capacity ==> o == Fail(CapacityExceeded) && unchanged(this)
      ensures count >= 0 && old(|items|) + count <= capacity ==>
                o == Pass && items == old(items) + Tokens(count) && Quantity() == old(Quantity()) + count
    {
      if count < 0 {
        return Fail(InvalidArgument("count"));
      }
      if |items| + count > capacity {
        return Fail(CapacityExceeded);
      }
      ghost var start := |items|;
      var itemIndex := 0;
      while itemIndex < count
        invariant 0 <= itemIndex <= count
        invariant items == old(items) + Tokens(itemIndex)
        invariant items == Tokens(start + itemIndex)
        invariant priceOverride == old(priceOverride)
      {
        TokensAppend(itemIndex, 1);
        TokensAppend(start + itemIndex, 1);
        items := items + [Token];
        itemIndex := itemIndex + 1;
      }
      o := Pass;
    }

    /** `RefillToCapacity`: adds as many items as there is free space, reports
        how many that was, and leaves the slot full. */
    method RefillToCapacity() returns (added: int)
      requires Valid()
      modifies this
      ensures Valid()
      ensures priceOverride == old(priceOverride)
      ensures added == capacity - old(Quantity()) && added >= 0
      ensures items == old(items) + Tokens(added)
      ensures Quantity() == capacity
      ensures added == 0 ==> unchanged(this)
    {
      var freeSpace := capacity - |items|;
      if freeSpace <= 0 {
        return 0;
      }
      ghost var start := |items|;
      var itemIndex := 0;
      while itemIndex < freeSpace
        invariant 0 <= itemIndex <= freeSpace
        invariant items == old(items) + Tokens(itemIndex)
        invariant items == Tokens(start + itemIndex)
        invariant priceOverride == old(priceOverride)
      {
        TokensAppend(itemIndex, 1);
        TokensAppend(start + itemIndex, 1);
        items := items + [Token];
        itemIndex := itemIndex + 1;
      }
      return freeSpace;
    }

    /** `SetPriceOverride`: a negative price fails and changes nothing; otherwise
        the override becomes `newPrice` (None clears it). */
    method SetPriceOverride(newPrice: Option<int>) returns (o: Outcome)
      requires Valid()
      modifies this
      ensures Valid()
      ensures items == old(items)
      ensures newPrice.Some? && newPrice.value < 0 ==>
                o == Fail(InvalidArgument("newPrice")) && unchanged(this)
      ensures !(newPrice.Some? && newPrice.value < 0) ==> o == Pass && priceOverride == newPrice
    {
      if newPrice.Some? && newPrice.value < 0 {
        return Fail(InvalidArgument("newPrice"));
      }
      priceOverride := newPrice;
      o := Pass;
    }
  }

  /** `new Slot(...)`: runs the constructor's checks in source order and fails
      with the first one that does not hold; otherwise a fresh slot. */
  method NewSlot(code: string, capacity: int, initialQuantity: int,
                 product: Option<ProductType>, priceOverride: Option<int>) returns (r: Result<Slot>)
    requires product.Some? ==> product.value.Valid()
    ensures SlotError(code, capacity, initialQuantity, product, priceOverride).Some? ==>
              r == Failure(SlotError(code, capacity, initialQuantity, product, priceOverride).value)
    ensures SlotError(code, capacity, initialQuantity, product, priceOverride).None? ==>
              && r.Success? && fresh(r.value) && r.value.Valid()
              && r.value.code == code && r.value.capacity == capacity
              && Some(r.value.product) == product && r.value.priceOverride == priceOverride
              && r.value.Quantity() == initialQuantity
  {
    var e := SlotError(code, capacity, initialQuantity, product, priceOverride);
    if e.Some? {
      return Failure(e.value);
    }
    var slot := new Slot(code, capacity, initialQuantity, product.value, priceOverride);
    return Success(slot);
  }

  /** Removing an item after a refill of n leaves n - 1 more items than before:
      the two admin and customer operations compose as the counts say. */
  method RefillThenRemove(slot: Slot, n: int) returns (o1: Outcome, o2: Outcome)
    requires slot.Valid() && n > 0 && slot.Quantity() + n <= slot.capacity
    modifies slot
    ensures slot.Valid()
    ensures o1 == Pass && o2 == Pass
    ensures slot.Quantity() == old(slot.Quantity()) + n - 1
  {
    o1 := slot.Refill(n);
    o2 := slot.RemoveOne();
  }
}
