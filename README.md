# Vending machine transaction and change-making engine, in Dafny

This project models the core of a coin-operated vending machine written in C#.

- **Coin ledger.** `MoneyInventory` maps the five coins (1, 2, 5, 10 and 20 kr.) to counts. It makes change with a greedy rule over the face values 20, 10, 5, 2, 1.
- **Product slot.** A `Slot` has a capacity, a queue of item tokens and an optional price override.
- **Product descriptor.** `ProductType` is validated when built and never changes.
- **Slot store.** The in-memory store finds the first slot with an exact code.
- **Vending service.** `VendingService` keeps the customer's credit (`insertedAmount`) and runs the customer and admin operations over one ledger and one slot list.
- **Console input rules.** Three helpers from the console program: parsing a coin, normalising a slot code, and finding a slot by product name.

The model is split into modules:

- `Failures`: the error kinds standing in for the C# exceptions, and Option/Result/Outcome.
- `Coins`: the coin type and its face value.
- `Text`: the string primitives the helpers use.
- `Products`: `ProductType`.
- `Money`: coin dictionaries as `Counts`, the greedy rule as the specification functions `Step`/`Run`/`GreedyChange`, and the class `MoneyInventory`.
- `Slots`: the class `Slot`.
- `Repository`: the class `InMemorySlotRepository`.
- `Service`: the class `VendingService` and `PurchaseResult`.
- `Input`: the console helpers.

State the C# code updates in place is modelled that way:

- The ledger's dictionary is a field of a class that `Add`, `Remove` and `MakeChange` reassign.
- A slot's queue is a `seq` field.
- The credit is a field of the service.
- `CanMakeChange` keeps the C# `tempCounts` array.

Each change-making method (`CanMakeChange`, `MakeChange`, `CancelAndReturn`, `Purchase`, `CanPurchase`) is proved against the greedy specification function `GreedyChange`. The greedy rule's properties are lemmas:

- It conserves coins and money.
- A successful pass pays exactly the amount.
- The pass may stop early once nothing is owed.
- It is *not* complete.

The greedy rule is not complete for limited counts. With unlimited coins greedy always pays, since there is a 1-coin; the system {20, 10, 5, 2, 1} is canonical, so it also uses the fewest coins. With the counts a real ledger holds it can fail where another choice would succeed: one 5 and three 2s cannot pay 6 greedily, although 2 + 2 + 2 works. `Money.GreedyCanMissPayableChange` proves this. `Service.CancelAfterThreeTwosFails` shows what the service does in that state: cancelling fails, the credit stays 6, and the 5 has left the ledger.

## Model

| member | source | states |
|---|---|---|
| Coins.Face | VendingMachine.Domain/Class1.cs:53-61 | a coin's face value is its enum value, one of 1, 2, 5, 10, 20 |
| Coins.CoinOfValue | VendingMachine.Domain/MoneyInventory.cs:141-147 | the chained value-to-coin conditional yields a coin of that face value for every face value |
| Coins.FaceRoundTrip | VendingMachine.Domain/MoneyInventory.cs:141-147 | mapping a coin to its value and back through the conditional is the identity |
| Text.TrimStartSuffix | VendingMachineUI/Program.cs:642 | trimming the start drops only leading whitespace and leaves a suffix that starts with a non-whitespace character |
| Text.TrimEndPrefix | VendingMachineUI/Program.cs:642 | trimming the end drops only trailing whitespace and leaves a prefix that ends with a non-whitespace character |
| Text.TrimEmptyIffBlank | VendingMachineUI/Program.cs:637-643 | `Trim` gives the empty string exactly for blank text |
| Text.NatToStringRoundTrip | VendingMachine.Domain/ProductType.cs:42 | the decimal text of a price parses back to that price |
| Text.NatToStringInjective | VendingMachine.Domain/ProductType.cs:42 | different prices print differently |
| Products.NewProduct | VendingMachine.Domain/ProductType.cs:14-38 | succeeds exactly when id > 0, name and category are not blank and base price ≥ 0; otherwise the first failing check, in source order, names its parameter; a success holds the arguments |
| Products.ProductType.Describe | VendingMachine.Domain/ProductType.cs:40-43 | the text is the name, " (", the base price's decimal text (no leading zero; it parses back to the price) and " kr.)" |
| Money.SetOnlyChanges | VendingMachine.Domain/MoneyInventory.cs:34 | writing one coin's count changes that count and no other |
| Money.Value | VendingMachine.Domain/MoneyInventory.cs:55-64 | definition without a contract of its own: the worth of a coin dictionary, count times face value summed over the five coins, as `Total` computes it; the measure in the contracts of `MoneyInventory.Add`, `MoneyInventory.Remove`, `MoneyInventory.Total`, `VendingService.InsertCoin`, `VendingService.CancelAndReturn`, the admin coin methods and `Money.GreedyChangeCorrect`, with its properties in `Money.ValueNonNegative`, `Money.ValueUpdate` and `Money.ValueRemove` |
| Money.ValueNonNegative | VendingMachine.Domain/MoneyInventory.cs:55-64 | a ledger with no negative count is worth a non-negative amount |
| Money.ValueUpdate | VendingMachine.Domain/MoneyInventory.cs:26-35 | adding k coins of one kind raises the worth by k times its face value |
| Money.ValueRemove | VendingMachine.Domain/MoneyInventory.cs:38-52 | removing k held coins of one kind lowers the worth by k times its face value and keeps counts non-negative |
| Money.CountsNonNegative | VendingMachine.Domain/MoneyInventory.cs:149 | a count read from a well-formed ledger (`Coins[denom]`) is not negative |
| Money.OrderFacts | VendingMachine.Domain/MoneyInventory.cs:133 | `values` has five entries, the i-th is the face of the i-th coin of the order 20, 10, 5, 2, 1, and the order lists each coin once |
| Money.DenominationAt | VendingMachine.Domain/MoneyInventory.cs:133-147 | the i-th entry of `values` is the face of the i-th coin of the order, and the conditional maps it back to that coin |
| Money.Take | VendingMachine.Domain/MoneyInventory.cs:150-151 | specification function without a contract of its own: the coins of one face value a step takes, the smaller of what fits in the amount owed and what is available; its bounds are `Money.TakeFits` |
| Money.Step | VendingMachine.Domain/MoneyInventory.cs:149-163 | specification function without a contract of its own: one iteration of the greedy loop on one coin; its properties are `Money.StepSound`, `Money.StepMovesCoins`, `Money.StepPaysOwed`, `Money.StepAtZero` and `Money.StepSkipsUnused` |
| Money.Run | VendingMachine.Domain/MoneyInventory.cs:137-170 | specification function without a contract of its own: the greedy pass after its first n iterations; its properties are the `Money.Run…` lemmas |
| Money.GreedyChange | VendingMachine.Domain/MoneyInventory.cs:137-170 | specification function without a contract of its own: the complete pass over all five coins, against which `CanMakeChange`, `MakeChange`, `CancelAndReturn`, `Purchase` and `CanPurchase` are stated; its properties are `Money.GreedyChangeCorrect` and `Money.RunHaltsAtZero` |
| Money.TakeFits | VendingMachine.Domain/MoneyInventory.cs:150-151 | `use` is at most the available count, its worth is at most what is owed, and it is not negative |
| Money.StepSound | VendingMachine.Domain/MoneyInventory.cs:153-163 | a loop step keeps all counts and the amount owed non-negative |
| Money.StepMovesCoins | VendingMachine.Domain/MoneyInventory.cs:153-160 | a step moves coins from ledger to change; per coin, the two together keep their total |
| Money.StepPaysOwed | VendingMachine.Domain/MoneyInventory.cs:153-163 | a step lowers the amount owed by exactly the worth of the coins it hands out |
| Money.StepAtZero | VendingMachine.Domain/MoneyInventory.cs:166-169 | with nothing owed a step changes nothing |
| Money.StepSkipsUnused | VendingMachine.Domain/MoneyInventory.cs:153 | a step that takes no coin changes nothing, so skipping the update when `use` is 0 is the same step |
| Money.StepAtPosition | VendingMachine.Domain/MoneyInventory.cs:90-103 | seen through the `tempCounts` positions, a step lowers the owed amount and the i-th count by `use` and leaves the other counts |
| Money.RunSound | VendingMachine.Domain/MoneyInventory.cs:137-170 | every state of a pass from a well-formed ledger is sound |
| Money.RunMovesCoins | VendingMachine.Domain/MoneyInventory.cs:137-170 | during a pass, per coin, handed out plus left equals the ledger's count |
| Money.RunPaysOwed | VendingMachine.Domain/MoneyInventory.cs:137-170 | during a pass, the worth handed out plus the amount still owed is the amount |
| Money.RunConserves | VendingMachine.Domain/MoneyInventory.cs:137-170 | the pass splits the ledger into left and handed out, and the money is conserved |
| Money.RunHaltsAtZero | VendingMachine.Domain/MoneyInventory.cs:166-169 | once nothing is owed the remaining iterations change nothing, so breaking early gives the full pass's result |
| Money.GreedyChangeOfZero | VendingMachine.Services/VendingService.cs:122-131 | for amount 0 the pass hands out no coins and leaves the ledger, as the service's shortcut does |
| Money.GreedyChangeCorrect | VendingMachine.Domain/MoneyInventory.cs:117-179 | each coin handed out is between 0 and the ledger's count, and the ledger loses exactly it; the change is worth the amount exactly when nothing is owed; the ledger's worth drops by the change's worth |
| Money.GreedySucceedsWithEnoughOnes | VendingMachine.Domain/MoneyInventory.cs:137-176 | the pass never fails when the ledger holds at least `amount` one-coins |
| Money.GreedyMissesSix | VendingMachine.Domain/MoneyInventory.cs:137-176 | on one 5 and n ≥ 3 twos, the pass for 6 takes the 5 and stops owing 1 |
| Money.GreedyCanMissPayableChange | VendingMachine.Domain/MoneyInventory.cs:137-176 | the greedy rule is not complete: that ledger can pay 6 exactly, yet the pass fails |
| Money.GreedyFourteenExample | VendingMachine.Domain/MoneyInventory.cs:137-176 | the ledger {10:1, 5:1, 2:2, 1:n} pays 14 as 10 + 2 + 2 |
| Money.MoneyInventory.constructor | VendingMachine.Domain/MoneyInventory.cs:12-23 | a new ledger has all five coins with count 0 |
| Money.MoneyInventory.Add | VendingMachine.Domain/MoneyInventory.cs:26-35 | a negative count fails with `count` and changes nothing; otherwise only that coin's count rises by exactly count, and so does the worth by count × face |
| Money.MoneyInventory.Remove | VendingMachine.Domain/MoneyInventory.cs:38-52 | a negative count fails with `count`, more than is held fails with insufficient funds, both changing nothing; otherwise only that coin's count drops by count, never below 0 |
| Money.MoneyInventory.Total | VendingMachine.Domain/MoneyInventory.cs:55-64 | the ledger's worth, never negative, reading only |
| Money.MoneyInventory.CanMakeChange | VendingMachine.Domain/MoneyInventory.cs:67-114 | false for a negative amount; otherwise true exactly when the greedy pass leaves nothing owed; it changes nothing |
| Money.MoneyInventory.TakeCoins | VendingMachine.Domain/MoneyInventory.cs:139-163 | the loop body on the i-th value is one greedy step on the real ledger and the result |
| Money.MoneyInventory.MakeChange | VendingMachine.Domain/MoneyInventory.cs:117-179 | a negative amount fails and changes nothing; otherwise the ledger ends as the greedy pass leaves it (even on failure: no rollback), and the result is the change when nothing is owed, ChangeNotAvailable otherwise |
| Money.CheckThenMakeChange | VendingMachine.Domain/MoneyInventory.cs:67-179 | `CanMakeChange` is true exactly when `MakeChange` on the same ledger and amount succeeds |
| Money.AddThenRemoveRestores | VendingMachine.Domain/MoneyInventory.cs:26-52 | adding n coins then removing n of the same kind restores the ledger |
| Slots.Tokens | VendingMachine.Domain/Slot.cs:22 | a queue of n identical item tokens |
| Slots.TokensAppend | VendingMachine.Domain/Slot.cs:67-71 | enqueueing b tokens after a gives a + b tokens |
| Slots.SlotError | VendingMachine.Domain/Slot.cs:34-57 | the constructor's checks in source order: no error exactly when all hold, else the first failing one with its parameter |
| Slots.Slot.Quantity | VendingMachine.Domain/Slot.cs:25-28 | the number of items in the queue |
| Slots.Slot.constructor | VendingMachine.Domain/Slot.cs:31-72 | the properties are the arguments and the queue holds `initialQuantity` items, within capacity |
| Slots.NewSlot | VendingMachine.Domain/Slot.cs:31-72 | fails with the first failing check; otherwise a fresh valid slot with Quantity = initialQuantity |
| Slots.Slot.HasStock | VendingMachine.Domain/Slot.cs:75-78 | true exactly when Quantity > 0 |
| Slots.Slot.GetPrice | VendingMachine.Domain/Slot.cs:81-84 | the override when set, else the base price; never negative on a valid slot |
| Slots.Slot.RemoveOne | VendingMachine.Domain/Slot.cs:87-95 | an empty slot fails with OutOfStock and changes nothing; otherwise the oldest item leaves and Quantity drops by 1 |
| Slots.Slot.Refill | VendingMachine.Domain/Slot.cs:98-112 | a negative count or one past capacity fails and changes nothing; otherwise count items join the queue |
| Slots.Slot.RefillToCapacity | VendingMachine.Domain/Slot.cs:115-127 | returns capacity − old Quantity and leaves the slot full; on a full slot returns 0 and changes nothing |
| Slots.Slot.SetPriceOverride | VendingMachine.Domain/Slot.cs:130-137 | a negative price fails and changes nothing; otherwise the override becomes the argument (None clears it) and the items stay |
| Slots.RefillThenRemove | VendingMachine.Domain/Slot.cs:87-112 | a refill of n that fits followed by a removal leaves n − 1 more items |
| Repository.FirstIndex | VendingMachine.Infrastructure/InMemorySlotRepository.cs:29-36 | the index of the first slot whose code equals the argument exactly; none exactly when no slot has it |
| Repository.SlotWithCode | VendingMachine.Infrastructure/InMemorySlotRepository.cs:26-37 | a slot of the list with that code, or none exactly when no slot has it |
| Repository.InMemorySlotRepository.constructor | VendingMachine.Infrastructure/InMemorySlotRepository.cs:14-17 | the store keeps the list it is given |
| Repository.InMemorySlotRepository.GetAll | VendingMachine.Infrastructure/InMemorySlotRepository.cs:20-23 | the stored list itself |
| Repository.InMemorySlotRepository.GetByCode | VendingMachine.Infrastructure/InMemorySlotRepository.cs:26-37 | the first slot in list order with exactly that code, or none |
| Repository.InMemorySlotRepository.Update | VendingMachine.Infrastructure/InMemorySlotRepository.cs:40-43 | changes nothing |
| Service.VendingService.constructor | VendingMachine.Services/VendingService.cs:20-36 | the service holds the given store and ledger and no credit |
| Service.VendingService.Target | VendingMachine.Services/VendingService.cs:157-164 | the slot an operation acts on: none for a blank code; otherwise a slot of the list with exactly that code, and none exactly when no slot has it (the lookups of lines 96, 176, 220 and 245) |
| Service.VendingService.ChangeOwed | VendingMachine.Services/VendingService.cs:118 | definition without a contract of its own: the change a purchase owes, credit minus the target slot's price, never negative once the checks pass (also line 195 of `CanPurchase`); used by `VendingService.PurchaseSucceeds` and the ensures of `VendingService.Purchase` |
| Service.VendingService.PurchaseSucceeds | VendingMachine.Services/VendingService.cs:87-148 | predicate without a contract of its own: every purchase check passes and the greedy pass covers credit − price; `Purchase` succeeds and `CanPurchase` answers true exactly when it holds |
| Service.VendingService.PurchaseRefusal | VendingMachine.Services/VendingService.cs:90-115 | the first failing purchase check in source order: blank code, unknown code, empty slot, not enough credit; none exactly when a slot is found, has stock and the credit covers its price |
| Service.VendingService.InsertCoin | VendingMachine.Services/VendingService.cs:39-53 | a count ≤ 0 fails and changes nothing; otherwise that coin's ledger count rises by count and the credit by count × face, so ledger worth minus credit is unchanged |
| Service.VendingService.GetInsertedAmount | VendingMachine.Services/VendingService.cs:56-59 | the credit, never negative |
| Service.VendingService.CancelAndReturn | VendingMachine.Services/VendingService.cs:62-84 | with no credit returns no coins and changes nothing; otherwise the ledger ends as the greedy pass for the credit leaves it; on success the coins are worth the credit and the credit is 0; on failure the credit stays |
| Service.VendingService.Purchase | VendingMachine.Services/VendingService.cs:87-148 | a failed check is reported with nothing changed; then the ledger ends as the greedy pass for credit − price leaves it; a change failure leaves the slot and credit; success removes the oldest item, zeroes the credit and returns the product and the greedy change; it succeeds exactly when `PurchaseSucceeds` held; other slots never change |
| Service.VendingService.Dispense | VendingMachine.Services/VendingService.cs:118-147 | change first (none for 0), then one item, then the credit reset; a change failure stops before the slot and credit |
| Service.VendingService.GetAllSlots | VendingMachine.Services/VendingService.cs:151-154 | the store's list |
| Service.VendingService.GetSlotByCode | VendingMachine.Services/VendingService.cs:157-164 | none for a blank code, else the store's first slot with that code |
| Service.VendingService.CanPurchase | VendingMachine.Services/VendingService.cs:167-204 | true exactly when `Purchase` from the same state would succeed; changes nothing |
| Service.VendingService.RefillSlot | VendingMachine.Services/VendingService.cs:207-229 | blank code, negative count, unknown code fail in that order; otherwise the slot's `Refill` decides; no other slot changes |
| Service.VendingService.SetSlotPriceOverride | VendingMachine.Services/VendingService.cs:232-254 | blank code, negative price, unknown code fail in that order; otherwise the override is set and the items stay; no other slot changes |
| Service.VendingService.AdminAddCoins | VendingMachine.Services/VendingService.cs:257-266 | a negative count fails and changes nothing; otherwise `Add`, the credit untouched |
| Service.VendingService.AdminRemoveCoins | VendingMachine.Services/VendingService.cs:269-278 | a negative count fails and changes nothing; otherwise `Remove`, including its insufficient-coins failure |
| Service.VendingService.GetMachineCashTotal | VendingMachine.Services/VendingService.cs:281-285 | the ledger's worth, never negative |
| Service.CancelAfterThreeTwosFails | VendingMachine.Services/VendingService.cs:62-84 | with one 5 and n twos stocked, inserting three 2s and cancelling fails with ChangeNotAvailable, the credit stays 6 and the 5 is gone from the ledger |
| Input.TryParseCoin | VendingMachineUI/Program.cs:331-361 | succeeds exactly on the decimal text of a face value, yielding that coin |
| Input.ParseCoinRoundTrip | VendingMachineUI/Program.cs:331-361 | printing a coin's face value and parsing it gives the coin |
| Input.CodeCandidate | VendingMachineUI/Program.cs:637-649 | none for blank input or a trimmed, upper-cased form not 2 or 3 long; that form otherwise |
| Input.TryNormalizeSlotCode | VendingMachineUI/Program.cs:633-660 | fails on blank input and on a wrong length without looking at slots; otherwise succeeds, with the trimmed, upper-cased form, exactly when a slot has that code |
| Input.NameMatches | VendingMachineUI/Program.cs:680-691 | definition without a contract of its own: the slot's lower-cased product name equals the needle (exact pass, line 680) or starts with it (prefix pass, line 691); used by `Input.FirstNameMatch`, `Input.ExactMatchIsPrefixMatch` and the loop invariants of `Input.TryFindSlotCodeByProductName` |
| Input.FirstNameMatch | VendingMachineUI/Program.cs:677-696 | the index of the first slot whose lower-cased product name equals (or starts with) the needle; none exactly when no slot matches |
| Input.ExactMatchIsPrefixMatch | VendingMachineUI/Program.cs:677-696 | an exact match is also found by the prefix pass, at the same place or earlier |
| Input.TryFindSlotCodeByProductName | VendingMachineUI/Program.cs:663-699 | blank text fails; otherwise the first exact name match wins over any prefix match, then the first prefix match; fails when neither pass matches |

## Left out

- Console I/O of the console program (`Main`, the menus, the purchase, insert and refund flows, printing) is not modelled; it only reads and prints text and calls the service.
- The console program calls `AdminEmptyCash`, `RefillSlotToCapacity`, `RefillAllSlotsToCapacity` and `AdminTopUpCoinFloat`. `VendingService.cs` does not define them, so there is nothing to model.
- The stub `ProductType`, `Slot` and `MoneyInventory` classes in `Class1.cs` are not modelled; only its `CoinType` is.
- The exception classes become the `Error` variants. The message texts are not kept; the parameter names of argument errors are.
- The repository interfaces and `InMemoryMoneyRepository` are not modelled; the service holds the ledger directly, as the single ledger that repository hands out.
- "Slot not found" is an `ArgumentException` naming `slotCode` in `Purchase`, `RefillSlot` and `SetSlotPriceOverride` (VendingService.cs:99, 223, 248). The model gives it its own `NotFound` variant, so the order of the checks stays visible. It does not keep the parameter name.
- Integers are unbounded. The C# code uses unchecked 32-bit `int` arithmetic, and the model does not capture where it wraps around:
  - `insertedAmount + coin × count` (VendingService.cs:52) and the sum in `Total` (MoneyInventory.cs:57-63).
  - The capacity guard `itemQueue.Count + count > Capacity` (Slot.cs:104). A refill with a count near 2^31 makes the sum negative, so the guard passes and the loop enqueues far past Capacity.
  - The count update `Coins[type] + count` (MoneyInventory.cs:34), reached through `AdminAddCoins` and `InsertCoin` (VendingService.cs:49). A large count wraps a coin's count to a negative number.
  - Slots.Slot.Valid (0 ≤ Quantity ≤ Capacity) and Money.WellFormed (every coin count ≥ 0) are proved to hold after every operation only because the model's integers are unbounded. In the C# code these wrap-arounds can break both.
- `Trim`, `ToUpperInvariant`, `ToLowerInvariant`, `StartsWith` and `string.IsNullOrWhiteSpace` are defined in `Text` with ASCII case mapping and ASCII/Latin-1 white space (including U+0085 and U+00A0). .NET's full Unicode behaviour is not modelled. In particular, non-ASCII letters are not case-mapped. For example, the product "Müsli-bar" typed as "MÜSLI" is found by .NET's `ToLowerInvariant` but not by `Text.LowerChar`, which maps only A-Z.
- Null strings cannot occur. A missing product for a slot is `None`, and a product name is never null because a valid product has a non-blank name. The service constructor's null checks on its repositories are not modelled.
- A dictionary with five coin keys is the record `Counts`. Every key is always present, as the C# code keeps it.
- A slot's `Queue<int>` is a `seq<int>` of identical tokens. The C# code enqueues the value 1 for every item.
- Service.VendingService.Purchase: its ensures state the change as the greedy pass's `given` with nothing owed. That this change is worth credit − price, and the ledger's worth drops by the same amount, follows from `Money.GreedyChangeCorrect`. It is not repeated in the method's own ensures.
- Service.VendingService.Dispense: not a C# method. It is the second half of `Purchase`, lines 118-147, split out so each half has its own proof.
- Money.MoneyInventory.TakeCoins: not a C# method. It is the body of the `MakeChange` loop, lines 139-163, split out so the loop and its body have separate proofs.
- Greedy completeness or optimality is not claimed, because it is false for limited counts. `Money.GreedyCanMissPayableChange` proves the counterexample.
