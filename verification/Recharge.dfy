/** Least top-up such that the balance becomes a multiple of the monthly consumption, when the
    top-up is paid with vouchers of given denominations: an unbounded coin dynamic program. */
module Recharge {
  import opened Arithmetic

  const INT_MAX: int := 0x7FFF_FFFF
  const INT_MIN: int := -0x8000_0000

  /** The table value that stands for "cannot be paid". */
  const UNPAYABLE: int := INT_MAX - 1

  // ---------- What a payment is ----------

  function Sum(p: seq<int>): int
  {
    if p == [] then 0 else p[0] + Sum(p[1..])
  }

  /** p is a list of vouchers, each of one of the given denominations. */
  ghost predicate Uses(p: seq<int>, coins: seq<int>)
  {
    forall i :: 0 <= i < |p| ==> p[i] in coins
  }

  ghost predicate Payable(coins: seq<int>, amount: int)
  {
    exists p :: Uses(p, coins) && Sum(p) == amount
  }

  ghost predicate NonNegative(coins: seq<int>)
  {
    forall i :: 0 <= i < |coins| ==> coins[i] >= 0
  }

  /** v is the least number of vouchers that pay the amount, or UNPAYABLE when none do. */
  ghost predicate Least(coins: seq<int>, amount: int, v: int)
  {
    && (v == UNPAYABLE <==> !Payable(coins, amount))
    && (v != UNPAYABLE ==>
          && 0 <= v <= amount
          && (exists p :: Uses(p, coins) && Sum(p) == amount && |p| == v)
          && (forall p :: Uses(p, coins) && Sum(p) == amount ==> v <= |p|))
  }

  lemma {:induction false} SumConcat(p: seq<int>, q: seq<int>)
    ensures Sum(p + q) == Sum(p) + Sum(q)
    decreases |p|
  {
    if p == [] {
      assert p + q == q;
    } else {
      assert (p + q)[1..] == p[1..] + q;
      SumConcat(p[1..], q);
    }
  }

  lemma {:induction false} SumBounds(p: seq<int>, lo: int, hi: int)
    requires forall i :: 0 <= i < |p| ==> lo <= p[i] <= hi
    ensures |p| * lo <= Sum(p) <= |p| * hi
  {
    if p != [] {
      SumBounds(p[1..], lo, hi);
    }
  }

  /** Taking the vouchers i..j out of a payment. */
  lemma SumWithout(p: seq<int>, i: nat, j: nat)
    requires i <= j <= |p|
    ensures Sum(p[..i] + p[j..]) == Sum(p) - Sum(p[i..j])
  {
    assert p == p[..i] + p[i..];
    SumConcat(p[..i], p[i..]);
    assert p[i..] == p[i..j] + p[j..];
    SumConcat(p[i..j], p[j..]);
    SumConcat(p[..i], p[j..]);
  }

  lemma SumOfNonNegative(p: seq<int>, i: nat)
    requires i < |p|
    requires forall k :: 0 <= k < |p| ==> p[k] >= 0
    ensures Sum(p) >= p[i]
  {
    var rest := p[..i] + p[i + 1..];
    SumWithout(p, i, i + 1);
    assert Sum(p[i..i + 1]) == p[i];
    assert forall k :: 0 <= k < |rest| ==> 0 <= rest[k] <= (if k < i then p[k] else p[k + 1]);
    SumAtLeastZero(rest);
  }

  lemma {:induction false} SumAtLeastZero(p: seq<int>)
    requires forall k :: 0 <= k < |p| ==> p[k] >= 0
    ensures Sum(p) >= 0
  {
    if p != [] {
      SumAtLeastZero(p[1..]);
    }
  }

  // ---------- Filling the table ----------

  /** With no denominations only the amount 0 can be paid. */
  lemma LeastWithoutCoins(amount: int)
    requires 0 <= amount
    ensures Least([], amount, if amount == 0 then 0 else UNPAYABLE)
  {
    assert Uses([], []) && Sum([]) == 0;
    forall p: seq<int> | p != []
      ensures !Uses(p, [])
    {
      assert p[0] !in [];
    }
  }

  /** A denomination above the amount does not help to pay it. */
  lemma LeastAboveAmount(coins: seq<int>, coin: int, amount: int, v: int)
    requires NonNegative(coins + [coin]) && amount < coin
    requires Least(coins, amount, v)
    ensures Least(coins + [coin], amount, v)
  {
    forall p | Uses(p, coins + [coin]) && Sum(p) == amount
      ensures Uses(p, coins)
    {
      forall i | 0 <= i < |p|
        ensures p[i] in coins
      {
        SumOfNonNegative(p, i);
      }
    }
    SamePayments(coins, coin, amount, v);
  }

  /** A denomination of value 0 does not help either. */
  lemma LeastZeroCoin(coins: seq<int>, amount: int, v: int)
    requires Least(coins, amount, v)
    ensures Least(coins + [0], amount, v)
  {
    forall p | Uses(p, coins + [0]) && Sum(p) == amount
      ensures exists q :: Uses(q, coins) && Sum(q) == amount && |q| <= |p|
    {
      var q := WithoutZeros(p, coins);
    }
    SamePayments(coins, 0, amount, v);
  }

  lemma {:induction false} WithoutZeros(p: seq<int>, coins: seq<int>) returns (q: seq<int>)
    requires Uses(p, coins + [0])
    ensures Uses(q, coins) && Sum(q) == Sum(p) && |q| <= |p|
  {
    if p == [] {
      q := [];
    } else {
      var r := WithoutZeros(p[1..], coins);
      if p[0] == 0 {
        q := r;
      } else {
        q := [p[0]] + r;
        assert q[1..] == r;
      }
    }
  }

  lemma SamePayments(coins: seq<int>, coin: int, amount: int, v: int)
    requires Least(coins, amount, v)
    requires forall p :: Uses(p, coins + [coin]) && Sum(p) == amount ==>
               exists q :: Uses(q, coins) && Sum(q) == amount && |q| <= |p|
    ensures Least(coins + [coin], amount, v)
  {
    forall p | Uses(p, coins)
      ensures Uses(p, coins + [coin])
    {
    }
  }

  /** A payment that uses the coin is one voucher of it and a payment of the rest. */
  lemma WithoutCoin(all: seq<int>, coin: int, amount: int, p: seq<int>) returns (q: seq<int>)
    requires Uses(p, all) && Sum(p) == amount && coin in p
    ensures Uses(q, all) && Sum(q) == amount - coin && |q| == |p| - 1
  {
    var i :| 0 <= i < |p| && p[i] == coin;
    SumWithout(p, i, i + 1);
    assert Sum(p[i..i + 1]) == coin;
    q := p[..i] + p[i + 1..];
  }

  lemma WithCoin(all: seq<int>, coin: int, q: seq<int>)
    requires Uses(q, all) && coin in all
    ensures Uses([coin] + q, all) && Sum([coin] + q) == coin + Sum(q)
  {
    assert ([coin] + q)[1..] == q;
  }

  /** The step of the dynamic program: a payment either leaves the new denomination out, or
      is one voucher of it together with a payment of the remaining amount. */
  lemma LeastStep(coins: seq<int>, coin: int, amount: int, without: int, rest: int)
    requires 0 < coin <= amount < UNPAYABLE
    requires Least(coins, amount, without)
    requires Least(coins + [coin], amount - coin, rest)
    ensures Least(coins + [coin], amount,
              if rest != UNPAYABLE && rest + 1 < without then rest + 1 else without)
  {
    var all := coins + [coin];
    assert forall p :: Uses(p, coins) ==> Uses(p, all);
    forall p | Uses(p, all) && Sum(p) == amount && coin in p
      ensures rest != UNPAYABLE && rest + 1 <= |p|
    {
      var q := WithoutCoin(all, coin, amount, p);
    }
    assert forall p :: Uses(p, all) && coin !in p ==> Uses(p, coins);
    if rest != UNPAYABLE {
      var q :| Uses(q, all) && Sum(q) == amount - coin && |q| == rest;
      WithCoin(all, coin, q);
    }
  }

  /** The nested in-place loops: afterwards every entry is the least number of vouchers. */
  method Fill(dp: array<int>, denominations: seq<int>)
    requires NonNegative(denominations)
    requires 0 < dp.Length <= UNPAYABLE
    requires dp[0] == 0 && forall i :: 0 < i < dp.Length ==> dp[i] == UNPAYABLE
    modifies dp
    ensures forall i :: 0 <= i < dp.Length ==> Least(denominations, i, dp[i])
  {
    forall i | 0 <= i < dp.Length
      ensures Least([], i, dp[i])
    {
      LeastWithoutCoins(i);
    }
    assert denominations[..0] == [];
    for k := 0 to |denominations|
      invariant forall i :: 0 <= i < dp.Length ==> Least(denominations[..k], i, dp[i])
    {
      var coin := denominations[k];
      ghost var coins, all := denominations[..k], denominations[..k + 1];
      assert all == coins + [coin];
      forall j | 0 <= j < dp.Length && j < coin
        ensures Least(all, j, dp[j])
      {
        LeastAboveAmount(coins, coin, j, dp[j]);
      }
      var i := coin;
      while i < dp.Length
        invariant coin <= i
        invariant forall j :: 0 <= j < dp.Length && j < i ==> Least(all, j, dp[j])
        invariant forall j :: i <= j < dp.Length ==> Least(coins, j, dp[j])
      {
        if coin == 0 {
          LeastZeroCoin(coins, i, dp[i]);
        } else {
          LeastStep(coins, coin, i, dp[i], dp[i - coin]);
        }
        if dp[i - coin] != UNPAYABLE {
          dp[i] := if dp[i - coin] + 1 < dp[i] then dp[i - coin] + 1 else dp[i];
        }
        i := i + 1;
      }
    }
    assert denominations[..|denominations|] == denominations;
  }

  /** A fresh table in which only the amount 0 is payable. */
  method EmptyTable(maxAmount: int) returns (dp: array<int>)
    requires 0 <= maxAmount
    ensures fresh(dp) && dp.Length == maxAmount + 1
    ensures dp[0] == 0 && forall i :: 0 < i < dp.Length ==> dp[i] == 0x7FFF_FFFF - 1 == UNPAYABLE
  {
    dp := new int[maxAmount + 1](_ => UNPAYABLE);
    dp[0] := 0;
  }

  // ---------- The remainder that is looked for ----------

  function RequiredRemainder(balance: int, monthly: int): int
    requires monthly != 0
  {
    Remainder(monthly - Remainder(balance, monthly), monthly)
  }

  /** None of the C++ int operations of RequiredRemainder overflows or divides by zero. */
  predicate RemainderIsDefined(balance: int, monthly: int)
  {
    && INT_MIN <= balance <= INT_MAX && INT_MIN <= monthly <= INT_MAX
    && monthly != 0
    && !(balance == INT_MIN && monthly == -1)
    && INT_MIN <= monthly - Remainder(balance, monthly) <= INT_MAX
  }

  /** The test of the scan: the amount has the required remainder. */
  predicate Accepted(balance: int, monthly: int, amount: int)
    requires monthly != 0
  {
    Remainder(amount, monthly) == RequiredRemainder(balance, monthly)
  }

  /** For a positive consumption the test accepts exactly the amounts that make the balance a
      multiple of it, whatever the sign of the balance. */
  lemma AcceptedMeansMultiple(balance: int, monthly: int, amount: int)
    requires monthly > 0 && amount >= 0
    ensures Accepted(balance, monthly, amount) <==> (balance + amount) % monthly == 0
  {
    var r := RequiredRemainder(balance, monthly);
    var q := if balance >= 0 then balance / monthly else -((-balance) / monthly);
    assert Remainder(balance, monthly) == balance - q * monthly;
    var z := monthly - Remainder(balance, monthly);
    assert z > 0 && r == z % monthly;
    assert z == (1 + q) * monthly - balance;
    assert r == z - (z / monthly) * monthly;
    var c := 1 + q - z / monthly;
    assert r + balance == c * monthly by {
      assert (1 + q) * monthly - (z / monthly) * monthly == c * monthly;
    }
    SameRemainder(amount, r, monthly, c, balance);
  }

  lemma SameRemainder(a: int, r: int, m: int, c: int, b: int)
    requires m > 0 && 0 <= r < m && r + b == c * m
    ensures a % m == r <==> (b + a) % m == 0
  {
    var k := a / m;
    assert a == k * m + a % m;
    assert b + a == (c + k) * m + (a % m - r);
    if a % m == r {
      MultipleHasNoRemainder(c + k, m);
    } else if (b + a) % m == 0 {
      var e := (b + a) / m;
      assert b + a == e * m;
      assert (e - c - k) * m == a % m - r;
      SmallMultiple(e - c - k, m);
    }
  }

  lemma MultipleHasNoRemainder(k: int, m: int)
    requires m > 0
    ensures (k * m) % m == 0
  {
    assert (k * m) % m == 0 by {
      var q, r := (k * m) / m, (k * m) % m;
      assert k * m == q * m + r;
      assert (k - q) * m == r;
      SmallMultiple(k - q, m);
    }
  }

  /** For a negative consumption the test is too strong: it accepts an amount only when the
      balance and the amount are both multiples. */
  lemma AcceptedForNegativeConsumption(balance: int, monthly: int, amount: int)
    requires monthly < 0 && amount >= 0
    ensures Accepted(balance, monthly, amount) <==> balance % monthly == 0 && amount % monthly == 0
  {
    var m := -monthly;
    var b := Remainder(balance, monthly);
    RemainderOfSum(m, b);
    assert RequiredRemainder(balance, monthly) == -((m + b) % monthly);
    SignOfDivisor(m + b, m);
    if balance < 0 {
      NegatedMultiple(balance, m);
    }
    SignOfDivisor(balance, m);
    SignOfDivisor(-balance, m);
  }

  /** What the balance lacks to the next multiple. */
  lemma ToNextMultiple(balance: int, monthly: int) returns (amount: int)
    requires monthly < 0
    ensures amount >= 0 && (balance + amount) % monthly == 0
  {
    var q := -balance / monthly;
    amount := -balance - q * monthly;
    assert balance + amount == (-q) * monthly;
    MultipleOfNegative(-q, monthly);
  }

  /** The test means what its documentation says, for every amount, if and only if the consumption
      is positive or divides the balance. */
  lemma TestIsRightExactly(balance: int, monthly: int)
    requires monthly != 0
    ensures (forall amount :: amount >= 0 ==>
               (Accepted(balance, monthly, amount) <==> (balance + amount) % monthly == 0))
            <==> monthly > 0 || balance % monthly == 0
  {
    if monthly > 0 {
      forall amount | amount >= 0
        ensures Accepted(balance, monthly, amount) <==> (balance + amount) % monthly == 0
      {
        AcceptedMeansMultiple(balance, monthly, amount);
      }
    } else if balance % monthly == 0 {
      forall amount | amount >= 0
        ensures Accepted(balance, monthly, amount) <==> (balance + amount) % monthly == 0
      {
        AcceptedForNegativeConsumption(balance, monthly, amount);
        AddedMultiple(balance, amount, monthly);
      }
    } else {
      var amount := ToNextMultiple(balance, monthly);
      AcceptedForNegativeConsumption(balance, monthly, amount);
      assert !Accepted(balance, monthly, amount);
    }
  }

  /** Balance 2, consumption -19: topping up 17 gives 19, which the test refuses. */
  lemma TestRefusesSolution()
    ensures (2 + 17) % -19 == 0 && !Accepted(2, -19, 17)
  {
    AcceptedForNegativeConsumption(2, -19, 17);
  }

  lemma MultipleOfNegative(k: int, monthly: int)
    requires monthly < 0
    ensures (k * monthly) % monthly == 0
  {
    assert k * monthly == (-k) * (-monthly);
    MultipleHasNoRemainder(-k, -monthly);
    SignOfDivisor(k * monthly, -monthly);
  }

  /** Adding a multiple does not change whether an amount is one. */
  lemma AddedMultiple(b: int, a: int, monthly: int)
    requires monthly < 0 && b % monthly == 0
    ensures (b + a) % monthly == 0 <==> a % monthly == 0
  {
    var k := b / monthly;
    assert b == k * monthly;
    if a % monthly == 0 {
      assert b + a == (k + a / monthly) * monthly;
      MultipleOfNegative(k + a / monthly, monthly);
    }
    if (b + a) % monthly == 0 {
      assert a == ((b + a) / monthly - k) * monthly;
      MultipleOfNegative((b + a) / monthly - k, monthly);
    }
  }

  lemma SignOfDivisor(a: int, m: int)
    requires m > 0
    ensures a % (-m) == a % m
  {
    var q, r := a / m, a % m;
    var p, t := a / (-m), a % (-m);
    assert a == q * m + r && a == p * (-m) + t;
    assert (q + p) * m == t - r;
    SmallMultiple(q + p, m);
  }

  lemma NegatedMultiple(a: int, m: int)
    requires m > 0
    ensures (-a) % m == 0 <==> a % m == 0
  {
    if a % m == 0 {
      assert -a == (-(a / m)) * m;
      MultipleHasNoRemainder(-(a / m), m);
    }
    if (-a) % m == 0 {
      assert a == (-((-a) / m)) * m;
      MultipleHasNoRemainder(-((-a) / m), m);
    }
  }

  lemma RemainderOfSum(m: int, b: int)
    requires m > 0 && -m < b < m
    ensures (m + b) % m == 0 <==> b == 0
  {
    if (m + b) % m == 0 {
      var e := (m + b) / m;
      assert (e - 1) * m == b;
      SmallMultiple(e - 1, m);
    }
  }

  // ---------- The searches ----------

  function Largest(xs: seq<int>): (max: int)
    requires xs != []
    ensures max in xs && forall i :: 0 <= i < |xs| ==> xs[i] <= max
  {
    if |xs| == 1 then xs[0]
    else
      var rest := Largest(xs[1..]);
      if xs[0] < rest then rest else xs[0]
  }

  /** *max_element: the source has no valid call with an empty list. */
  method MaxElement(xs: seq<int>) returns (max: int)
    requires xs != []
    ensures max == Largest(xs)
  {
    max := xs[0];
    for i := 1 to |xs|
      invariant max in xs && forall j :: 0 <= j < i ==> xs[j] <= max
    {
      if max < xs[i] {
        max := xs[i];
      }
    }
  }

  /** The amount can be paid and brings the balance to a multiple of the consumption. */
  ghost predicate Solves(balance: int, monthly: int, denominations: seq<int>, amount: int)
    requires monthly > 0
  {
    amount >= 0 && Payable(denominations, amount) && (balance + amount) % monthly == 0
  }

  /** The denominations fit the int arithmetic of findMinRecharge. */
  predicate UsableDenominations(denominations: seq<int>)
  {
    && denominations != []
    && forall i :: 0 <= i < |denominations| ==> 0 <= denominations[i] && denominations[i] * 20 <= INT_MAX
  }

  /** The search stops at 20 times the largest denomination. */
  function Cap(denominations: seq<int>): int
    requires denominations != []
  {
    Largest(denominations) * 20
  }

  /** findMinRecharge: the least accepted amount that can be paid, up to the cap, or -1 when
      there is none. For a positive consumption this is the least solution; and up to a
      consumption of 21 the result -1 means that no amount of any size is a solution. For a
      negative one the result is 0 or -1, as it divides the balance or not. */
  method FindMinRecharge(balance: int, monthly: int, denominations: seq<int>) returns (amount: int)
    requires RemainderIsDefined(balance, monthly)
    requires UsableDenominations(denominations)
    ensures -1 <= amount <= Cap(denominations)
    ensures amount >= 0 ==> Payable(denominations, amount) && Accepted(balance, monthly, amount)
    ensures forall a :: 0 <= a <= Cap(denominations) && (amount == -1 || a < amount) ==>
              !(Payable(denominations, a) && Accepted(balance, monthly, a))
    ensures monthly < 0 ==> amount == if balance % monthly == 0 then 0 else -1
    ensures monthly > 0 && amount >= 0 ==> Solves(balance, monthly, denominations, amount)
    ensures monthly > 0 && amount >= 0 ==> forall a :: 0 <= a < amount ==> !Solves(balance, monthly, denominations, a)
    ensures 0 < monthly <= 21 && amount == -1 ==> forall a :: !Solves(balance, monthly, denominations, a)
  {
    var requiredRemainder := RequiredRemainder(balance, monthly);
    var max := MaxElement(denominations);
    var maxAmount := max * 20;
    var dp := EmptyTable(maxAmount);
    Fill(dp, denominations);
    amount := -1;
    var a := 0;
    while a <= maxAmount
      invariant 0 <= a <= maxAmount + 1
      invariant forall i :: 0 <= i < dp.Length ==> Least(denominations, i, dp[i])
      invariant forall i :: 0 <= i < a ==> !(Payable(denominations, i) && Accepted(balance, monthly, i))
    {
      if dp[a] != UNPAYABLE {
        if Remainder(a, monthly) == requiredRemainder {
          amount := a;
          break;
        }
      }
      a := a + 1;
    }
    if monthly > 0 {
      SearchResult(balance, monthly, denominations, amount);
    } else {
      AcceptedForNegativeConsumption(balance, monthly, 0);
      if amount > 0 {
        AcceptedForNegativeConsumption(balance, monthly, amount);
      }
      NothingIsPaid(denominations);
    }
  }

  lemma NothingIsPaid(denominations: seq<int>)
    ensures Payable(denominations, 0)
  {
    assert Uses([], denominations) && Sum([]) == 0;
  }

  /** What the result of the search means for a positive consumption. */
  lemma SearchResult(balance: int, monthly: int, denominations: seq<int>, amount: int)
    requires monthly > 0 && UsableDenominations(denominations)
    requires -1 <= amount <= Cap(denominations)
    requires amount >= 0 ==> Payable(denominations, amount) && Accepted(balance, monthly, amount)
    requires forall a :: 0 <= a <= Cap(denominations) && (amount == -1 || a < amount) ==>
               !(Payable(denominations, a) && Accepted(balance, monthly, a))
    ensures amount >= 0 ==> Solves(balance, monthly, denominations, amount)
    ensures amount >= 0 ==> forall a :: 0 <= a < amount ==> !Solves(balance, monthly, denominations, a)
    ensures monthly <= 21 && amount == -1 ==> forall a :: !Solves(balance, monthly, denominations, a)
  {
    forall a | 0 <= a
      ensures Accepted(balance, monthly, a) <==> (balance + a) % monthly == 0
    {
      AcceptedMeansMultiple(balance, monthly, a);
    }
    if amount == -1 && monthly <= 21 {
      forall a
        ensures !Solves(balance, monthly, denominations, a)
      {
        if Solves(balance, monthly, denominations, a) {
          var least := CapLosesNothing(balance, monthly, denominations, a);
        }
      }
    }
  }

  /** findAllValidRecharges: exactly the accepted payable amounts up to 4000, in ascending order. */
  method FindAllValidRecharges(balance: int, monthly: int, denominations: seq<int>) returns (amounts: seq<int>)
    requires RemainderIsDefined(balance, monthly)
    requires NonNegative(denominations)
    ensures forall i, j :: 0 <= i < j < |amounts| ==> amounts[i] < amounts[j]
    ensures forall a :: a in amounts <==>
              0 <= a <= 4000 && Payable(denominations, a) && Accepted(balance, monthly, a)
    ensures monthly > 0 ==> forall a :: a in amounts <==> a <= 4000 && Solves(balance, monthly, denominations, a)
  {
    var requiredRemainder := RequiredRemainder(balance, monthly);
    var dp := EmptyTable(4000);
    Fill(dp, denominations);
    amounts := [];
    for a := 0 to 4001
      invariant forall i :: 0 <= i < dp.Length ==> Least(denominations, i, dp[i])
      invariant forall i, j :: 0 <= i < j < |amounts| ==> amounts[i] < amounts[j]
      invariant forall i :: 0 <= i < |amounts| ==> amounts[i] < a
      invariant forall i :: i in amounts <==>
                  0 <= i < a && Payable(denominations, i) && Accepted(balance, monthly, i)
    {
      if dp[a] != UNPAYABLE && Remainder(a, monthly) == requiredRemainder {
        amounts := amounts + [a];
      }
    }
    if monthly > 0 {
      forall a | a >= 0
        ensures Accepted(balance, monthly, a) <==> (balance + a) % monthly == 0
      {
        AcceptedMeansMultiple(balance, monthly, a);
      }
    }
  }

  // ---------- The cap loses nothing for consumptions up to 21 ----------

  /** More values below m than m: two of them coincide. */
  lemma {:induction false} Pigeonhole(f: seq<int>, m: nat) returns (i: nat, j: nat)
    requires |f| > m
    requires forall k :: 0 <= k < |f| ==> 0 <= f[k] < m
    ensures i < j < |f| && f[i] == f[j]
    decreases m
  {
    var last := |f| - 1;
    if k :| 0 <= k < last && f[k] == f[last] {
      i, j := k, last;
    } else {
      // no other value equals the last one, so it can stand in for m - 1
      var g := seq(last, k requires 0 <= k < last => if f[k] == m - 1 then f[last] else f[k]);
      i, j := Pigeonhole(g, m - 1);
    }
  }

  /** Among any m vouchers a non-empty consecutive group sums to a multiple of m. */
  lemma GroupOfMultiple(p: seq<int>, m: nat) returns (i: nat, j: nat)
    requires m > 0 && |p| >= m
    ensures i < j <= |p| && Sum(p[i..j]) % m == 0
  {
    var f := seq(|p| + 1, k requires 0 <= k <= |p| => Sum(p[..k]) % m);
    i, j := Pigeonhole(f, m);
    assert p[..j] == p[..i] + p[i..j];
    SumConcat(p[..i], p[i..j]);
    EqualRemainders(Sum(p[..i]), Sum(p[i..j]), m);
  }

  lemma EqualRemainders(a: int, d: int, m: int)
    requires m > 0 && (a + d) % m == a % m
    ensures d % m == 0
  {
    var k := (a + d) / m - a / m;
    assert d == k * m;
    MultipleHasNoRemainder(k, m);
  }

  lemma RemainderWithout(a: int, d: int, m: int)
    requires m > 0 && a % m == 0 && d % m == 0
    ensures (a - d) % m == 0
  {
    var k := a / m - d / m;
    assert a - d == k * m;
    MultipleHasNoRemainder(k, m);
  }

  /** Every solution can be thinned out to one that uses fewer than m vouchers. */
  lemma {:induction false} FewVouchersSuffice(balance: int, m: nat, denominations: seq<int>, p: seq<int>)
      returns (q: seq<int>)
    requires m > 0 && NonNegative(denominations)
    requires Uses(p, denominations) && (balance + Sum(p)) % m == 0
    ensures Uses(q, denominations) && (balance + Sum(q)) % m == 0
    ensures |q| < m && Sum(q) <= Sum(p)
    decreases |p|
  {
    if |p| < m {
      q := p;
    } else {
      var i, j := GroupOfMultiple(p, m);
      SumWithout(p, i, j);
      SumAtLeastZero(p[i..j]);
      RemainderWithout(balance + Sum(p), Sum(p[i..j]), m);
      q := FewVouchersSuffice(balance, m, denominations, p[..i] + p[j..]);
    }
  }

  lemma AtMostTwenty(n: nat, max: int)
    requires n <= 20 && max >= 0
    ensures n * max <= max * 20
  {
    assert (20 - n) * max >= 0;
  }

  /** For a consumption of at most 21 the cap is no restriction: if any amount solves the
      problem, then one no larger and within the cap does. */
  lemma CapLosesNothing(balance: int, monthly: int, denominations: seq<int>, amount: int)
      returns (least: int)
    requires 0 < monthly <= 21
    requires UsableDenominations(denominations)
    requires Solves(balance, monthly, denominations, amount)
    ensures Solves(balance, monthly, denominations, least) && least <= amount && least <= Cap(denominations)
  {
    var p :| Uses(p, denominations) && Sum(p) == amount;
    var q := FewVouchersSuffice(balance, monthly, denominations, p);
    least := Sum(q);
    var max := Largest(denominations);
    assert forall i :: 0 <= i < |q| ==> 0 <= q[i] <= max;
    SumBounds(q, 0, max);
    AtMostTwenty(|q|, max);
  }

  /** The search misses no solution for any balance and denominations. */
  ghost predicate SearchIsComplete(monthly: int)
    requires monthly > 0
  {
    forall balance, denominations, amount ::
      UsableDenominations(denominations) &&
      Solves(balance, monthly, denominations, amount) ==>
        exists a :: 0 <= a <= Cap(denominations) && Solves(balance, monthly, denominations, a)
  }

  /** 21 is exactly the largest consumption for which the cap of 20 vouchers is enough. */
  lemma SearchIsCompleteExactly(monthly: int)
    requires monthly > 0
    ensures SearchIsComplete(monthly) <==> monthly <= 21
  {
    if monthly <= 21 {
      forall balance, denominations, amount |
        UsableDenominations(denominations) &&
        Solves(balance, monthly, denominations, amount)
        ensures exists a :: 0 <= a <= Cap(denominations) && Solves(balance, monthly, denominations, a)
      {
        var a := CapLosesNothing(balance, monthly, denominations, amount);
      }
    } else {
      // balance 1 and vouchers of 1: the top-up would have to be monthly - 1, beyond the cap of 20
      var p := seq(monthly - 1, _ => 1);
      SumBounds(p, 1, 1);
      assert Uses(p, [1]);
      assert Solves(1, monthly, [1], monthly - 1);
      assert forall a :: 0 <= a <= 20 ==> !Solves(1, monthly, [1], a);
    }
  }
}
