/** The coin ledger `MoneyInventory`: a count per coin, and the greedy
    change-making rule over face values 20, 10, 5, 2, 1. */
module Money {
  import opened Failures
  import opened Coins

  /** A coin-count dictionary, the ledger's counts or a change handed out: one
      count per coin, so every coin type is always a key, as the C# code keeps it. */
  datatype Counts = Counts(one: int, two: int, five: int, ten: int, twenty: int) {

    /** The count stored under coin c (`dictionary[c]`). */
    function Get(c: CoinType): int {
      match c
      case One => one
      case Two => two
      case Five => five
      case Ten => ten
      case Twenty => twenty
    }

    /** The dictionary after `dictionary[c] = v`: only coin c's count changes. */
    function Set(c: CoinType, v: int): Counts {
      match c
      case One => this.(one := v)
      case Two => this.(two := v)
      case Five => this.(five := v)
      case Ten => this.(ten := v)
      case Twenty => this.(twenty := v)
    }
  }

  /** Setting coin c's count to v changes that count and no other. */
  lemma SetOnlyChanges(m: Counts, c: CoinType, v: int)
    ensures m.Set(c, v).Get(c) == v
    ensures forall d :: d != c ==> m.Set(c, v).Get(d) == m.Get(d)
  {
  }

  /** No count is negative. */
  predicate WellFormed(m: Counts) {
    m.one >= 0 && m.two >= 0 && m.five >= 0 && m.ten >= 0 && m.twenty >= 0
  }

  lemma CountsNonNegative(m: Counts, c: CoinType)
    requires WellFormed(m)
    ensures m.Get(c) >= 0
  {
  }

  /** All five coins with count 0, as the C# code builds for a new ledger, an
      empty change result or a fresh change accumulator. */
  const NoCoins: Counts := Counts(0, 0, 0, 0, 0)

  /** What the coins of kind c in m are worth: count times face value. */
  function Worth(m: Counts, c: CoinType): int {
    m.Get(c) * Face(c)
  }

  /** The amount of money a coin dictionary is worth. */
  function Value(m: Counts): int {
    Worth(m, One) + Worth(m, Two) + Worth(m, Five) + Worth(m, Ten) + Worth(m, Twenty)
  }

  lemma ValueNonNegative(m: Counts)
    requires WellFormed(m)
    ensures Value(m) >= 0
  {
  }

  /** Changing one coin's count by k changes the worth by k times its face value. */
  lemma ValueUpdate(m: Counts, c: CoinType, k: int)
    requires WellFormed(m) && m.Get(c) + k >= 0
    ensures WellFormed(m.Set(c, m.Get(c) + k))
    ensures Value(m.Set(c, m.Get(c) + k)) == Value(m) + k * Face(c)
  {
  }

  /** Taking k coins of kind c away lowers the worth by k times its face value. */
  lemma ValueRemove(m: Counts, c: CoinType, k: int)
    requires WellFormed(m) && 0 <= k <= m.Get(c)
    ensures WellFormed(m.Set(c, m.Get(c) - k))
    ensures Value(m.Set(c, m.Get(c) - k)) == Value(m) - k * Face(c)
  {
    ValueUpdate(m, c, -k);
  }

  /** The face values in the order the greedy rule visits them (the `values` array). */
  const Values: seq<int> := [20, 10, 5, 2, 1]

  /** The coins in the same order. */
  const Order: seq<CoinType> := [Twenty, Ten, Five, Two, One]

  /** The i-th face value is the face of the i-th coin, and the order lists each coin once. */
  lemma OrderFacts()
    ensures |Values| == |Order| == 5
    ensures forall i :: 0 <= i < 5 ==> Values[i] == Face(Order[i])
    ensures forall i, j :: 0 <= i < j < 5 ==> Order[i] != Order[j]
  {
  }

  /** The i-th entry of `values` is the face of the i-th coin of the order,
      and the C# value-to-coin mapping takes it back to that coin. */
  lemma DenominationAt(i: nat)
    requires i < |Order|
    ensures |Values| == |Order|
    ensures Values[i] == Face(Order[i]) && CoinOfValue(Values[i]) == Order[i]
  {
    OrderFacts();
    FaceRoundTrip(Order[i]);
  }

  /** The state of a greedy pass: counts still in the ledger, coins handed out
      so far, and the amount still owed. */
  datatype Greedy = Greedy(left: Counts, given: Counts, rest: int)

  predicate Sound(g: Greedy) {
    WellFormed(g.left) && WellFormed(g.given) && g.rest >= 0
  }

  /** The number of coins of face value `face` one greedy step takes:
      as many as fit in the amount owed, but no more than are available. */
  function Take(rest: int, face: nat, available: int): int
    requires face > 0
  {
    var maxByValue := rest / face;
    if maxByValue < available then maxByValue else available
  }

  /** A step takes no more coins than are available and no more money than is
      owed, and never a negative number of coins from a well-formed ledger. */
  lemma TakeFits(rest: nat, face: nat, available: int)
    requires face > 0
    ensures var use := Take(rest, face, available);
              use <= available && use * face <= rest && (available >= 0 ==> use >= 0)
  {
    var maxByValue := rest / face;
    var use := Take(rest, face, available);
    assert maxByValue * face <= rest;
    if use >= 0 {
      assert use * face <= maxByValue * face;
    }
  }

  /** One iteration of the greedy loop on coin c. */
  function Step(g: Greedy, c: CoinType): Greedy {
    var use := Take(g.rest, Face(c), g.left.Get(c));
    Greedy(g.left.Set(c, g.left.Get(c) - use), g.given.Set(c, g.given.Get(c) + use), g.rest - use * Face(c))
  }

  lemma StepSound(g: Greedy, c: CoinType)
    requires Sound(g)
    ensures Sound(Step(g, c))
  {
    TakeFits(g.rest, Face(c), g.left.Get(c));
    CountsNonNegative(g.left, c);
    CountsNonNegative(g.given, c);
  }

  /** One step moves coins of its own kind from the ledger side to the change
      side: per coin, the two sides together keep their total. */
  lemma StepMovesCoins(g: Greedy, c: CoinType)
    requires Sound(g)
    ensures var h := Step(g, c);
              forall d :: h.left.Get(d) + h.given.Get(d) == g.left.Get(d) + g.given.Get(d)
  {
    var use := Take(g.rest, Face(c), g.left.Get(c));
    SetOnlyChanges(g.left, c, g.left.Get(c) - use);
    SetOnlyChanges(g.given, c, g.given.Get(c) + use);
  }

  /** One step lowers the amount owed by exactly the worth of the coins it hands out. */
  lemma StepPaysOwed(g: Greedy, c: CoinType)
    requires Sound(g)
    ensures Sound(Step(g, c))
    ensures Step(g, c).rest + Value(Step(g, c).given) == g.rest + Value(g.given)
  {
    var use := Take(g.rest, Face(c), g.left.Get(c));
    StepSound(g, c);
    TakeFits(g.rest, Face(c), g.left.Get(c));
    ValueUpdate(g.given, c, use);
  }

  /** A step with nothing owed takes no coin. */
  lemma StepAtZero(g: Greedy, c: CoinType)
    requires Sound(g) && g.rest == 0
    ensures Step(g, c) == g
  {
    assert Take(0, Face(c), g.left.Get(c)) == 0;
  }

  /** A step that takes no coin leaves the state as it is; this is why the
      C# loop may skip the update when `use` is 0. */
  lemma StepSkipsUnused(g: Greedy, c: CoinType)
    requires Sound(g) && Take(g.rest, Face(c), g.left.Get(c)) <= 0
    ensures Step(g, c) == g
  {
    TakeFits(g.rest, Face(c), g.left.Get(c));
    CountsNonNegative(g.left, c);
    assert g.left.Set(c, g.left.Get(c)) == g.left;
    assert g.given.Set(c, g.given.Get(c)) == g.given;
  }

  /** A step on the i-th coin of the order, seen through the positions of the
      order, as `CanMakeChange` keeps the counts: it lowers the amount owed
      and the i-th count by what it takes and leaves every other count alone. */
  lemma StepAtPosition(g: Greedy, i: nat)
    requires i < |Order|
    ensures |Values| == |Order| && Values[i] == Face(Order[i])
    ensures var h := Step(g, Order[i]);
            var use := Take(g.rest, Values[i], g.left.Get(Order[i]));
              && h.rest == g.rest - use * Values[i]
              && h.left.Get(Order[i]) == g.left.Get(Order[i]) - use
              && forall j :: 0 <= j < |Order| && j != i ==> h.left.Get(Order[j]) == g.left.Get(Order[j])
  {
    OrderFacts();
    var use := Take(g.rest, Values[i], g.left.Get(Order[i]));
    SetOnlyChanges(g.left, Order[i], g.left.Get(Order[i]) - use);
  }

  /** The greedy pass after its first n iterations, starting from the ledger
      `counts`, nothing handed out and `amount` owed. */
  function Run(counts: Counts, amount: int, n: nat): Greedy
    requires n <= |Order|
  {
    if n == 0 then Greedy(counts, NoCoins, amount)
    else Step(Run(counts, amount, n - 1), Order[n - 1])
  }

  /** Every state of a pass from a well-formed ledger and a non-negative amount
      is sound. */
  lemma {:induction false} RunSound(counts: Counts, amount: nat, n: nat)
    requires WellFormed(counts) && n <= |Order|
    ensures Sound(Run(counts, amount, n))
  {
    if n > 0 {
      RunSound(counts, amount, n - 1);
      StepSound(Run(counts, amount, n - 1), Order[n - 1]);
    }
  }

  /** The complete greedy pass over all five coins. */
  function GreedyChange(counts: Counts, amount: nat): Greedy
    requires WellFormed(counts)
  {
    Run(counts, amount, |Order|)
  }

  /** No coin is created or lost during a pass: per coin, what is handed out
      plus what is left is the ledger's count. */
  lemma {:induction false} RunMovesCoins(counts: Counts, amount: nat, n: nat)
    requires WellFormed(counts) && n <= |Order|
    ensures var g := Run(counts, amount, n);
              forall c :: g.left.Get(c) + g.given.Get(c) == counts.Get(c)
  {
    if n > 0 {
      RunMovesCoins(counts, amount, n - 1);
      RunSound(counts, amount, n - 1);
      StepMovesCoins(Run(counts, amount, n - 1), Order[n - 1]);
    }
  }

  /** What is handed out plus what is still owed is always the amount. */
  lemma {:induction false} RunPaysOwed(counts: Counts, amount: nat, n: nat)
    requires WellFormed(counts) && n <= |Order|
    ensures Sound(Run(counts, amount, n))
    ensures Run(counts, amount, n).rest + Value(Run(counts, amount, n).given) == amount
  {
    if n > 0 {
      RunPaysOwed(counts, amount, n - 1);
      StepPaysOwed(Run(counts, amount, n - 1), Order[n - 1]);
    }
  }

  /** Together: the pass splits the ledger into what is left and what is handed
      out, and what is handed out plus what is owed is the amount. */
  lemma RunConserves(counts: Counts, amount: nat, n: nat)
    requires WellFormed(counts) && n <= |Order|
    ensures Sound(Run(counts, amount, n))
    ensures var g := Run(counts, amount, n);
              && (forall c :: g.left.Get(c) + g.given.Get(c) == counts.Get(c))
              && g.rest + Value(g.given) == amount
              && Value(g.left) + Value(g.given) == Value(counts)
  {
    RunMovesCoins(counts, amount, n);
    RunPaysOwed(counts, amount, n);
    var g := Run(counts, amount, n);
    assert g.left.Get(One) + g.given.Get(One) == counts.Get(One);
    assert g.left.Get(Two) + g.given.Get(Two) == counts.Get(Two);
    assert g.left.Get(Five) + g.given.Get(Five) == counts.Get(Five);
    assert g.left.Get(Ten) + g.given.Get(Ten) == counts.Get(Ten);
    assert g.left.Get(Twenty) + g.given.Get(Twenty) == counts.Get(Twenty);
  }

  /** Once nothing is owed, the remaining iterations change nothing; this is why
      leaving the loop early agrees with running it to the end. */
  lemma {:induction false} RunHaltsAtZero(counts: Counts, amount: nat, n: nat, m: nat)
    requires WellFormed(counts) && n <= m <= |Order|
    requires Run(counts, amount, n).rest == 0
    ensures Run(counts, amount, m) == Run(counts, amount, n)
    decreases m
  {
    if m > n {
      RunHaltsAtZero(counts, amount, n, m - 1);
      RunSound(counts, amount, m - 1);
      StepAtZero(Run(counts, amount, m - 1), Order[m - 1]);
    }
  }

  /** With nothing owed the pass hands out nothing and leaves the ledger as it
      is, so skipping `MakeChange` for a zero amount gives the same result. */
  lemma GreedyChangeOfZero(counts: Counts)
    requires WellFormed(counts)
    ensures GreedyChange(counts, 0) == Greedy(counts, NoCoins, 0)
  {
    RunHaltsAtZero(counts, 0, 0, |Order|);
  }

  /** What a successful greedy pass promises: the coins handed out are worth
      exactly the amount, none exceeds the ledger's count, and the ledger loses
      exactly those coins and that much money. */
  lemma GreedyChangeCorrect(counts: Counts, amount: nat)
    requires WellFormed(counts)
    ensures Sound(GreedyChange(counts, amount))
    ensures var g := GreedyChange(counts, amount);
              && (forall c :: 0 <= g.given.Get(c) <= counts.Get(c) && g.left.Get(c) == counts.Get(c) - g.given.Get(c))
              && (g.rest == 0 <==> Value(g.given) == amount)
              && Value(g.left) == Value(counts) - Value(g.given)
  {
    RunConserves(counts, amount, |Order|);
    var g := GreedyChange(counts, amount);
    forall c ensures 0 <= g.given.Get(c) <= counts.Get(c) {
      CountsNonNegative(g.left, c);
      CountsNonNegative(g.given, c);
    }
  }

  /** The greedy pass never fails when the ledger holds at least `amount` one-coins:
      whatever the larger coins leave owed, the ones cover it. */
  lemma GreedySucceedsWithEnoughOnes(counts: Counts, amount: nat)
    requires WellFormed(counts) && counts.one >= amount
    ensures GreedyChange(counts, amount).rest == 0
  {
    RunConserves(counts, amount, 4);
    var g4 := Run(counts, amount, 4);
    assert g4.left.one == counts.one by {
      assert Run(counts, amount, 1).left.one == counts.one;
      assert Run(counts, amount, 2).left.one == counts.one;
      assert Run(counts, amount, 3).left.one == counts.one;
    }
    assert GreedyChange(counts, amount) == Step(g4, One);
  }

  /** The ledger can pay `amount` exactly with coins it holds. */
  ghost predicate Payable(counts: Counts, amount: int) {
    exists pay: Counts :: WellFormed(pay) && Fits(pay, counts) && Value(pay) == amount
  }

  /** Every count in `pay` is at most the matching count in `counts`. */
  predicate Fits(pay: Counts, counts: Counts) {
    forall c :: pay.Get(c) <= counts.Get(c)
  }

  /** On a ledger holding one 5, at least three 2s and nothing else, the greedy
      rule takes the 5 for an amount of 6 and is left owing 1. */
  lemma GreedyMissesSix(twos: int)
    requires twos >= 3
    ensures GreedyChange(Counts(0, twos, 1, 0, 0), 6) == Greedy(Counts(0, twos, 0, 0, 0), Counts(0, 0, 1, 0, 0), 1)
  {
    var ledger := Counts(0, twos, 1, 0, 0);
    var start := Greedy(ledger, NoCoins, 6);
    var afterFive := Greedy(Counts(0, twos, 0, 0, 0), Counts(0, 0, 1, 0, 0), 1);
    assert Run(ledger, 6, 1) == start;
    assert Run(ledger, 6, 2) == start;
    assert Run(ledger, 6, 3) == afterFive;
    assert Run(ledger, 6, 4) == afterFive;
    assert Run(ledger, 6, 5) == afterFive;
  }

  /** The greedy rule is not complete for limited counts: a ledger holding one 5
      and at least three 2s could pay 6 exactly (2 + 2 + 2), yet the greedy pass
      fails on it. */
  lemma GreedyCanMissPayableChange(twos: int)
    requires twos >= 3
    ensures WellFormed(Counts(0, twos, 1, 0, 0))
    ensures Payable(Counts(0, twos, 1, 0, 0), 6)
    ensures GreedyChange(Counts(0, twos, 1, 0, 0), 6).rest != 0
  {
    var threeTwos := Counts(0, 3, 0, 0, 0);
    assert Value(threeTwos) == 6;
    assert Fits(threeTwos, Counts(0, twos, 1, 0, 0));
    GreedyMissesSix(twos);
  }

  /** A worked example: a ledger {20:0, 10:1, 5:1, 2:2, 1:n}
      pays 14 as 10 + 2 + 2 and keeps {5:1, 1:n}. */
  lemma GreedyFourteenExample(ones: int)
    requires ones >= 0
    ensures var g := GreedyChange(Counts(ones, 2, 1, 1, 0), 14);
              g.rest == 0 && g.given == Counts(0, 2, 0, 1, 0) && g.left == Counts(ones, 0, 1, 0, 0)
  {
    var ledger := Counts(ones, 2, 1, 1, 0);
    var afterTen := Greedy(Counts(ones, 2, 1, 0, 0), Counts(0, 0, 0, 1, 0), 4);
    var afterTwos := Greedy(Counts(ones, 0, 1, 0, 0), Counts(0, 2, 0, 1, 0), 0);
    assert Run(ledger, 14, 1) == Greedy(ledger, NoCoins, 14);
    assert Run(ledger, 14, 2) == afterTen;
    assert Run(ledger, 14, 3) == afterTen;
    assert Run(ledger, 14, 4) == afterTwos;
    assert Run(ledger, 14, 5) == afterTwos;
  }

  /** The coin ledger. `coins` is the C# `Coins` dictionary. */
  class MoneyInventory {
    var coins: Counts

    ghost predicate Valid()
      reads this
    {
      WellFormed(coins)
    }

    /** A new ledger holds every coin type with count 0. */
    constructor ()
      ensures Valid()
      ensures coins == NoCoins
      ensures forall c :: coins.Get(c) == 0
    {
      coins := NoCoins;
    }

    /** `Add`: a negative count fails and changes nothing; otherwise only the
        given coin's count grows, by exactly `count`. */
    method Add(c: CoinType, count: int) returns (o: Outcome)
      requires Valid()
      modifies this
      ensures Valid()
      ensures count < 0 ==> o == Fail(InvalidArgument("count")) && unchanged(this)
      ensures count >= 0 ==> o == Pass && coins == old(coins).Set(c, old(coins).Get(c) + count)
      ensures count >= 0 ==> Value(coins) == old(Value(coins)) + count * Face(c)
    {
      if count < 0 {
        return Fail(InvalidArgument("count"));
      }
      ValueUpdate(coins, c, count);
      coins := coins.Set(c, coins.Get(c) + count);
      o := Pass;
    }

    /** `Remove`: a negative count, or more coins than the ledger holds, fails and
        changes nothing; otherwise only the given coin's count drops by `count`. */
    method Remove(c: CoinType, count: int) returns (o: Outcome)
      requires Valid()
      modifies this
      ensures Valid()
      ensures count < 0 ==> o == Fail(InvalidArgument("count")) && unchanged(this)
      ensures 0 <= count && old(coins).Get(c) < count ==> o == Fail(InsufficientFunds) && unchanged(this)
      ensures 0 <= count <= old(coins).Get(c) ==>
                o == Pass && coins == old(coins).Set(c, old(coins).Get(c) - count)
                && Value(coins) == old(Value(coins)) - count * Face(c)
    {
      if count < 0 {
        return Fail(InvalidArgument("count"));
      }
      if coins.Get(c) < count {
        return Fail(InsufficientFunds);
      }
      ValueRemove(coins, c, count);
      coins := coins.Set(c, coins.Get(c) - count);
      o := Pass;
    }

    /** `Total`: the money in the ledger, the sum of count times face value. */
    function Total(): (r: int)
      reads this
      requires Valid()
      ensures r >= 0
    {
      Value(coins)
    }

    /** `CanMakeChange`: false for a negative amount; otherwise it simulates the
        greedy rule on a copy of the counts (`tempCounts`) and reports whether the
        amount is covered. It changes nothing. */
    method CanMakeChange(amount: int) returns (ok: bool)
      requires Valid()
      ensures ok <==> amount >= 0 && GreedyChange(coins, amount).rest == 0
    {
      if amount < 0 {
        return false;
      }
      var values := Values;
      var tempCounts := new int[5];
      tempCounts[0] := coins.Get(Twenty);
      tempCounts[1] := coins.Get(Ten);
      tempCounts[2] := coins.Get(Five);
      tempCounts[3] := coins.Get(Two);
      tempCounts[4] := coins.Get(One);
      var rest := amount;
      for i := 0 to |values|
        invariant rest == Run(coins, amount, i).rest
        invariant forall j :: 0 <= j < 5 ==> tempCounts[j] == Run(coins, amount, i).left.Get(Order[j])
      {
        StepAtPosition(Run(coins, amount, i), i);
        var denomValue := values[i];
        var available := tempCounts[i];
        var maxByValue := rest / denomValue;
        var use := if maxByValue < available then maxByValue else available;
        rest := rest - use * denomValue;
        tempCounts[i] := tempCounts[i] - use;
        if rest == 0 {
          RunHaltsAtZero(coins, amount, i + 1, |Order|);
          return true;
        }
      }
      return rest == 0;
    }

    /** The body of the `MakeChange` loop on the i-th entry of `values`: find
        the coin of that value, take as many as fit in the amount owed but no
        more than the ledger holds, and move them from the ledger to the
        change when there is at least one. That is one greedy step. */
    method TakeCoins(i: nat, result: Counts, rest: int) returns (newResult: Counts, newRest: int)
      requires Valid() && Sound(Greedy(coins, result, rest)) && i < |Values|
      modifies this
      ensures Valid()
      ensures Greedy(coins, newResult, newRest) == Step(Greedy(old(coins), result, rest), Order[i])
    {
      ghost var before := Greedy(coins, result, rest);
      DenominationAt(i);
      var denomValue := Values[i];
      var denom := CoinOfValue(denomValue);
      var available := coins.Get(denom);
      var maxByValue := rest / denomValue;
      var use := if maxByValue < available then maxByValue else available;
      assert use == Take(before.rest, Face(denom), before.left.Get(denom));
      newResult, newRest := result, rest;
      if use > 0 {
        coins := coins.Set(denom, coins.Get(denom) - use);
        newResult := result.Set(denom, result.Get(denom) + use);
        newRest := rest - use * denomValue;
      } else {
        StepSkipsUnused(before, denom);
      }
    }

    /** `MakeChange`: a negative amount fails and changes nothing. Otherwise the
        greedy rule runs against the real counts, removing the coins it picks as it
        goes. If the amount is not covered it fails with ChangeNotAvailable and the
        coins already picked stay removed (no rollback). */
    method MakeChange(amount: int) returns (r: Result<Counts>)
      requires Valid()
      modifies this
      ensures Valid()
      ensures amount < 0 ==> r == Failure(InvalidArgument("amount")) && coins == old(coins)
      ensures amount >= 0 ==> coins == GreedyChange(old(coins), amount).left
      ensures amount >= 0 ==>
                r == if GreedyChange(old(coins), amount).rest == 0
                     then Success(GreedyChange(old(coins), amount).given)
                     else Failure(ChangeNotAvailable)
    {
      if amount < 0 {
        return Failure(InvalidArgument("amount"));
      }
      var result := NoCoins;
      var values := Values;
      var rest := amount;
      var i := 0;
      while i < |values|
        invariant 0 <= i <= |values| == |Order|
        invariant Valid()
        invariant Greedy(coins, result, rest) == Run(old(coins), amount, i)
      {
        RunSound(old(coins), amount, i);
        result, rest := TakeCoins(i, result, rest);
        if rest == 0 {
          RunHaltsAtZero(old(coins), amount, i + 1, |Order|);
          break;
        }
        i := i + 1;
      }
      RunSound(old(coins), amount, |Order|);
      if rest > 0 {
        return Failure(ChangeNotAvailable);
      }
      r := Success(result);
    }
  }

  /** Asking `CanMakeChange` first predicts the outcome of `MakeChange` on the
      same ledger and amount: both follow the same greedy rule. */
  method CheckThenMakeChange(inventory: MoneyInventory, amount: int) returns (ok: bool, r: Result<Counts>)
    requires inventory.Valid()
    modifies inventory
    ensures inventory.Valid()
    ensures ok <==> r.Success?
  {
    ok := inventory.CanMakeChange(amount);
    r := inventory.MakeChange(amount);
  }

  /** Adding n coins and then removing n coins of the same kind restores the ledger. */
  method AddThenRemoveRestores(inventory: MoneyInventory, c: CoinType, n: int)
    requires inventory.Valid() && n >= 0
    modifies inventory
    ensures inventory.Valid() && inventory.coins == old(inventory.coins)
  {
    var added := inventory.Add(c, n);
    var removed := inventory.Remove(c, n);
    assert removed == Pass;
  }
}
