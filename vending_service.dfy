/** `VendingService`: the customer and admin operations of the machine over one
    slot repository, one coin ledger and the credit the current customer has
    inserted. */
module Service {
  import opened Failures
  import opened Coins
  import opened Text
  import opened Products
  import opened Money
  import opened Slots
  import opened Repository

  /** `PurchaseResult`: the product bought and the change handed back. */
  datatype PurchaseResult = PurchaseResult(product: ProductType, change: Counts)

  class VendingService {
    /** The slot repository. */
    const repository: InMemorySlotRepository
    /** The single ledger the money repository hands out on every call. */
    const inventory: MoneyInventory
    /** `insertedAmount`: the current customer's credit. */
    var insertedAmount: int

    /** What the constructor establishes and every operation keeps. */
    ghost predicate Valid()
      reads this, inventory, repository.slots
    {
      && insertedAmount >= 0
      && inventory.Valid()
      && forall s :: s in repository.slots ==> s.Valid()
    }

    /** A new service holds no credit. */
    constructor (repository: InMemorySlotRepository, inventory: MoneyInventory)
      requires inventory.Valid()
      requires forall s :: s in repository.slots ==> s.Valid()
      ensures Valid()
      ensures this.repository == repository && this.inventory == inventory
      ensures insertedAmount == 0
    {
      this.repository := repository;
      this.inventory := inventory;
      insertedAmount := 0;
    }

    /** The slot an operation on `slotCode` acts on: none for a blank code,
        otherwise the first slot with exactly that code, if any. */
    function Target(slotCode: string): (r: Option<Slot>)
      ensures IsNullOrWhiteSpace(slotCode) ==> r.None?
      ensures r.Some? ==> r.value in repository.slots && r.value.code == slotCode
      ensures !IsNullOrWhiteSpace(slotCode) ==>
                (r.None? <==> forall s :: s in repository.slots ==> s.code != slotCode)
    {
      if IsNullOrWhiteSpace(slotCode) then None else SlotWithCode(repository.slots, slotCode)
    }

    /** The first check `Purchase` fails before it touches anything, in source
        order, or None when the purchase goes ahead to the change step. */
    function PurchaseRefusal(slotCode: string): (e: Option<Error>)
      reads this, repository.slots
      ensures IsNullOrWhiteSpace(slotCode) ==> e == Some(InvalidArgument("slotCode"))
      ensures (!IsNullOrWhiteSpace(slotCode) && forall s :: s in repository.slots ==> s.code != slotCode)
                ==> e == Some(NotFound)
      ensures e.None? <==>
                && Target(slotCode).Some?
                && Target(slotCode).value.HasStock()
                && insertedAmount >= Target(slotCode).value.GetPrice()
      ensures (Target(slotCode).Some? && !Target(slotCode).value.HasStock()) ==> e == Some(OutOfStock)
      ensures (&& Target(slotCode).Some? && Target(slotCode).value.HasStock()
               && insertedAmount < Target(slotCode).value.GetPrice())
                ==> e == Some(InsufficientFunds)
    {
      if IsNullOrWhiteSpace(slotCode) then Some(InvalidArgument("slotCode"))
      else match SlotWithCode(repository.slots, slotCode)
        case None => Some(NotFound)
        case Some(slot) =>
          if !slot.HasStock() then Some(OutOfStock)
          else if insertedAmount < slot.GetPrice() then Some(InsufficientFunds)
          else None
    }

    /** The change a purchase from `slotCode` owes: the credit minus the price. */
    function ChangeOwed(slotCode: string): (a: nat)
      reads this, repository.slots
      requires PurchaseRefusal(slotCode).None?
    {
      insertedAmount - Target(slotCode).value.GetPrice()
    }

    /** A purchase from `slotCode` would succeed now: every check passes and the
        greedy rule covers the change. */
    predicate PurchaseSucceeds(slotCode: string)
      reads this, inventory, repository.slots
      requires Valid()
    {
      PurchaseRefusal(slotCode).None? && GreedyChange(inventory.coins, ChangeOwed(slotCode)).rest == 0
    }

    /** `InsertCoin`: a count that is not positive fails and changes nothing;
        otherwise the coins go into the ledger and the credit grows by their
        worth, so the machine's own money (ledger minus credit) stays the same. */
    method InsertCoin(coin: CoinType, count: int) returns (o: Outcome)
      requires Valid()
      modifies this, inventory
      ensures Valid()
      ensures count <= 0 ==> o == Fail(InvalidArgument("count")) && unchanged(this, inventory)
      ensures count > 0 ==>
                && o == Pass
                && insertedAmount == old(insertedAmount) + count * Face(coin)
                && inventory.coins == old(inventory.coins).Set(coin, old(inventory.coins).Get(coin) + count)
                && Value(inventory.coins) - insertedAmount == old(Value(inventory.coins) - insertedAmount)
    {
      if count <= 0 {
        return Fail(InvalidArgument("count"));
      }
      var added := inventory.Add(coin, count);
      insertedAmount := insertedAmount + Face(coin) * count;
      o := Pass;
    }

    /** `GetInsertedAmount`: the current credit, never negative. */
    function GetInsertedAmount(): (r: int)
      reads this, inventory, repository.slots
      requires Valid()
      ensures r == insertedAmount && r >= 0
    {
      insertedAmount
    }

    /** `CancelAndReturn`: with no credit it hands back no coins and changes
        nothing. Otherwise the greedy rule pays the credit out of the ledger;
        on success the credit drops to 0 and the coins are worth exactly the
        credit; on failure the credit stays, and the coins the rule had picked
        are gone from the ledger. */
    method CancelAndReturn() returns (r: Result<Counts>)
      requires Valid()
      modifies this, inventory
      ensures Valid()
      ensures old(insertedAmount) == 0 ==> r == Success(NoCoins) && unchanged(this, inventory)
      ensures old(insertedAmount) > 0 ==>
                var g := GreedyChange(old(inventory.coins), old(insertedAmount));
                && inventory.coins == g.left
                && (g.rest == 0 ==> r == Success(g.given) && insertedAmount == 0)
                && (g.rest != 0 ==> r == Failure(ChangeNotAvailable) && insertedAmount == old(insertedAmount))
      ensures r.Success? ==>
                && Value(r.value) == old(insertedAmount)
                && Value(inventory.coins) == old(Value(inventory.coins)) - old(insertedAmount)
    {
      if insertedAmount == 0 {
        return Success(NoCoins);
      }
      GreedyChangeCorrect(inventory.coins, insertedAmount);
      r := inventory.MakeChange(insertedAmount);
      if r.Failure? {
        return;
      }
      insertedAmount := 0;
    }

    /** `Purchase`: the checks run in source order and the first failing one is
        reported with nothing changed. Then the change is taken from the ledger;
        if the greedy rule cannot cover it the purchase fails with
        ChangeNotAvailable, leaving the slot and the credit untouched (the
        ledger keeps the loss of the coins already picked). Otherwise one item
        leaves the slot, the credit drops to 0 and the customer gets the product
        and change worth exactly credit minus price. No other slot changes. */
    method Purchase(slotCode: string) returns (r: Result<PurchaseResult>)
      requires Valid()
      modifies this, inventory, repository.slots
      ensures Valid()
      ensures forall s :: s in repository.slots && Target(slotCode) != Some(s) ==> unchanged(s)
      ensures old(PurchaseRefusal(slotCode)).Some? ==>
                && r == Failure(old(PurchaseRefusal(slotCode)).value)
                && unchanged(this, inventory) && unchanged(repository.slots)
      ensures old(PurchaseRefusal(slotCode)).None? ==>
                var slot := Target(slotCode).value;
                var g := GreedyChange(old(inventory.coins), old(ChangeOwed(slotCode)));
                && inventory.coins == g.left
                && (g.rest == 0 ==>
                      && r == Success(PurchaseResult(slot.product, g.given))
                      && slot.items == old(slot.items)[1..]
                      && slot.priceOverride == old(slot.priceOverride)
                      && insertedAmount == 0)
                && (g.rest != 0 ==>
                      && r == Failure(ChangeNotAvailable)
                      && unchanged(slot)
                      && insertedAmount == old(insertedAmount))
      ensures r.Success? <==> old(PurchaseSucceeds(slotCode))
      ensures r.Success? ==>
                Target(slotCode).value.Quantity() == old(Target(slotCode).value.Quantity()) - 1
    {
      if IsNullOrWhiteSpace(slotCode) {
        return Failure(InvalidArgument("slotCode"));
      }
      var found := repository.GetByCode(slotCode);
      if found.None? {
        return Failure(NotFound);
      }
      var slot := found.value;
      if !slot.HasStock() {
        return Failure(OutOfStock);
      }
      var price := slot.GetPrice();
      if insertedAmount < price {
        return Failure(InsufficientFunds);
      }
      var changeValue := insertedAmount - price;
      assert PurchaseRefusal(slotCode).None? && changeValue == ChangeOwed(slotCode);
      r := Dispense(slot, changeValue);
    }

    /** The second half of `Purchase`, once its checks have passed: take the
        change from the ledger (none for a zero amount), then one item from the
        slot, then reset the credit. A change failure stops before the slot and
        the credit are touched. */
    method Dispense(slot: Slot, changeValue: nat) returns (r: Result<PurchaseResult>)
      requires inventory.Valid() && slot.Valid() && slot.HasStock()
      modifies this, inventory, slot
      ensures inventory.Valid() && slot.Valid()
      ensures var g := GreedyChange(old(inventory.coins), changeValue);
                && inventory.coins == g.left
                && (g.rest == 0 ==>
                      && r == Success(PurchaseResult(slot.product, g.given))
                      && slot.items == old(slot.items)[1..]
                      && slot.priceOverride == old(slot.priceOverride)
                      && insertedAmount == 0)
                && (g.rest != 0 ==>
                      && r == Failure(ChangeNotAvailable)
                      && unchanged(slot)
                      && insertedAmount == old(insertedAmount))
    {
      ghost var g0 := inventory.coins;
      ghost var g := GreedyChange(g0, changeValue);
      var change: Counts;
      if changeValue == 0 {
        GreedyChangeOfZero(inventory.coins);
        change := NoCoins;
      } else {
        var made := inventory.MakeChange(changeValue);
        if made.Failure? {
          return Failure(made.error);
        }
        change := made.value;
      }
      assert inventory.coins == g.left && change == g.given && g.rest == 0;
      var removed := slot.RemoveOne();
      repository.Update(slot);
      insertedAmount := 0;
      r := Success(PurchaseResult(slot.product, change));
    }

    /** `GetAllSlots`: the repository's list of slots. */
    function GetAllSlots(): (r: seq<Slot>)
      ensures r == repository.slots
    {
      repository.GetAll()
    }

    /** `GetSlotByCode`: none for a blank code, otherwise the repository's
        first slot with exactly that code. */
    method GetSlotByCode(slotCode: string) returns (r: Option<Slot>)
      ensures r == Target(slotCode)
      ensures r.Some? ==> r.value in repository.slots && r.value.code == slotCode
      ensures IsNullOrWhiteSpace(slotCode) ==> r.None?
    {
      if IsNullOrWhiteSpace(slotCode) {
        return None;
      }
      r := repository.GetByCode(slotCode);
    }

    /** `CanPurchase`: true exactly when `Purchase(slotCode)` would succeed now;
        it changes nothing. */
    method CanPurchase(slotCode: string) returns (b: bool)
      requires Valid()
      ensures b <==> PurchaseSucceeds(slotCode)
    {
      if IsNullOrWhiteSpace(slotCode) {
        return false;
      }
      var found := repository.GetByCode(slotCode);
      if found.None? {
        return false;
      }
      var slot := found.value;
      if !slot.HasStock() {
        return false;
      }
      var price := slot.GetPrice();
      if insertedAmount < price {
        return false;
      }
      var changeValue := insertedAmount - price;
      if changeValue == 0 {
        GreedyChangeOfZero(inventory.coins);
        return true;
      }
      b := inventory.CanMakeChange(changeValue);
    }

    /** `RefillSlot`: a blank code, a negative count or an unknown code fails
        and changes nothing; otherwise the slot's own `Refill` decides, and no
        other slot changes. */
    method RefillSlot(slotCode: string, count: int) returns (o: Outcome)
      requires Valid()
      modifies repository.slots
      ensures Valid()
      ensures forall s :: s in repository.slots && Target(slotCode) != Some(s) ==> unchanged(s)
      ensures IsNullOrWhiteSpace(slotCode) ==> o == Fail(InvalidArgument("slotCode"))
      ensures !IsNullOrWhiteSpace(slotCode) && count < 0 ==> o == Fail(InvalidArgument("count"))
      ensures !IsNullOrWhiteSpace(slotCode) && count >= 0 && Target(slotCode).None? ==> o == Fail(NotFound)
      ensures count < 0 ==> unchanged(repository.slots)
      ensures count >= 0 && Target(slotCode).Some? ==>
                var slot := Target(slotCode).value;
                && (old(slot.Quantity()) + count > slot.capacity ==> o == Fail(CapacityExceeded) && unchanged(slot))
                && (old(slot.Quantity()) + count <= slot.capacity ==>
                      o == Pass && slot.items == old(slot.items) + Tokens(count)
                      && slot.priceOverride == old(slot.priceOverride))
    {
      if IsNullOrWhiteSpace(slotCode) {
        return Fail(InvalidArgument("slotCode"));
      }
      if count < 0 {
        return Fail(InvalidArgument("count"));
      }
      var found := repository.GetByCode(slotCode);
      if found.None? {
        return Fail(NotFound);
      }
      var slot := found.value;
      o := slot.Refill(count);
      repository.Update(slot);
    }

    /** `SetSlotPriceOverride`: a blank code, a negative price or an unknown
        code fails and changes nothing; otherwise that slot's override becomes
        `newPrice` (None clears it) and its items stay. */
    method SetSlotPriceOverride(slotCode: string, newPrice: Option<int>) returns (o: Outcome)
      requires Valid()
      modifies repository.slots
      ensures Valid()
      ensures forall s :: s in repository.slots && Target(slotCode) != Some(s) ==> unchanged(s)
      ensures IsNullOrWhiteSpace(slotCode) ==> o == Fail(InvalidArgument("slotCode"))
      ensures (!IsNullOrWhiteSpace(slotCode) && newPrice.Some? && newPrice.value < 0)
                ==> o == Fail(InvalidArgument("newPrice")) && unchanged(repository.slots)
      ensures (!IsNullOrWhiteSpace(slotCode) && !(newPrice.Some? && newPrice.value < 0) && Target(slotCode).None?)
                ==> o == Fail(NotFound)
      ensures (!(newPrice.Some? && newPrice.value < 0) && Target(slotCode).Some?) ==>
                var slot := Target(slotCode).value;
                o == Pass && slot.priceOverride == newPrice && slot.items == old(slot.items)
    {
      if IsNullOrWhiteSpace(slotCode) {
        return Fail(InvalidArgument("slotCode"));
      }
      if newPrice.Some? && newPrice.value < 0 {
        return Fail(InvalidArgument("newPrice"));
      }
      var found := repository.GetByCode(slotCode);
      if found.None? {
        return Fail(NotFound);
      }
      var slot := found.value;
      o := slot.SetPriceOverride(newPrice);
      repository.Update(slot);
    }

    /** `AdminAddCoins`: a negative count fails and changes nothing; otherwise
        the coins go into the ledger without becoming customer credit. */
    method AdminAddCoins(coin: CoinType, count: int) returns (o: Outcome)
      requires Valid()
      modifies inventory
      ensures Valid()
      ensures count < 0 ==> o == Fail(InvalidArgument("count")) && unchanged(inventory)
      ensures count >= 0 ==>
                && o == Pass
                && inventory.coins == old(inventory.coins).Set(coin, old(inventory.coins).Get(coin) + count)
                && Value(inventory.coins) == old(Value(inventory.coins)) + count * Face(coin)
    {
      if count < 0 {
        return Fail(InvalidArgument("count"));
      }
      o := inventory.Add(coin, count);
    }

    /** `AdminRemoveCoins`: a negative count, or more coins than the ledger
        holds, fails and changes nothing; otherwise those coins leave the
        ledger. The credit is not touched. */
    method AdminRemoveCoins(coin: CoinType, count: int) returns (o: Outcome)
      requires Valid()
      modifies inventory
      ensures Valid()
      ensures count < 0 ==> o == Fail(InvalidArgument("count")) && unchanged(inventory)
      ensures 0 <= count && old(inventory.coins).Get(coin) < count ==>
                o == Fail(InsufficientFunds) && unchanged(inventory)
      ensures 0 <= count <= old(inventory.coins).Get(coin) ==>
                && o == Pass
                && inventory.coins == old(inventory.coins).Set(coin, old(inventory.coins).Get(coin) - count)
                && Value(inventory.coins) == old(Value(inventory.coins)) - count * Face(coin)
    {
      if count < 0 {
        return Fail(InvalidArgument("count"));
      }
      o := inventory.Remove(coin, count);
    }

    /** `GetMachineCashTotal`: the money in the ledger, never negative. */
    function GetMachineCashTotal(): (r: int)
      reads this, inventory, repository.slots
      requires Valid()
      ensures r == Value(inventory.coins) && r >= 0
    {
      inventory.Total()
    }
  }

  /** The ledger holds one 5-coin and `twos` 2-coins; a customer inserts three
      2-coins and cancels. The greedy rule takes the 5, still owes 1 and fails:
      the customer keeps a credit of 6 and the 5-coin is gone from the ledger,
      although three 2-coins would have paid the 6. */
  method CancelAfterThreeTwosFails(twos: int) returns (r: Result<Counts>, credit: int, ledger: Counts)
    requires twos >= 0
    ensures r == Failure(ChangeNotAvailable)
    ensures credit == 6
    ensures ledger == Counts(0, twos + 3, 0, 0, 0)
  {
    var inventory := new MoneyInventory();
    var stocked := inventory.Add(Five, 1);
    stocked := inventory.Add(Two, twos);
    assert inventory.coins == Counts(0, twos, 1, 0, 0);
    var repository := new InMemorySlotRepository([]);
    var service := new VendingService(repository, inventory);
    var inserted := service.InsertCoin(Two, 3);
    assert inventory.coins == Counts(0, twos + 3, 1, 0, 0);
    GreedyMissesSix(twos + 3);
    r := service.CancelAndReturn();
    credit := service.GetInsertedAmount();
    ledger := inventory.coins;
  }
}
