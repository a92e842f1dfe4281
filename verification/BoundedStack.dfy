/** The bounded stack template and the program that moves names from the in basket to the out
    basket through it, at every turn pushing or popping as a coin decides. */
module BoundedStack {

  class Stack<T(0)> {
    var stacksize: int
    var items: array<T>
    var top: int

    predicate Valid()
      reads this
    {
      items.Length == stacksize && 0 <= top <= stacksize
    }

    /** The items from the bottom up. */
    function Contents(): seq<T>
      requires Valid()
      reads this, items
    {
      items[..top]
    }

    constructor (ss: int)
      requires ss >= 0
      ensures Valid() && fresh(items) && stacksize == ss && Contents() == []
    {
      stacksize, top := ss, 0;
      items := new T[ss];
    }

    predicate IsEmpty()
      reads this
    {
      top == 0
    }

    predicate IsFull()
      reads this
    {
      top == stacksize
    }

    method Push(item: T) returns (ok: bool)
      requires Valid()
      modifies this`top, items
      ensures Valid() && ok == (|old(Contents())| < stacksize)
      ensures Contents() == if ok then old(Contents()) + [item] else old(Contents())
    {
      if top < stacksize {
        items[top] := item;
        top := top + 1;
        return true;
      } else {
        return false;
      }
    }

    /** The reference parameter keeps its value when the stack is empty. */
    method Pop(former: T) returns (ok: bool, item: T)
      requires Valid()
      modifies this`top
      ensures Valid() && ok == (old(Contents()) != [])
      ensures if ok then old(Contents()) == Contents() + [item] else Contents() == old(Contents()) && item == former
    {
      if top > 0 {
        top := top - 1;
        item := items[top];
        return true, item;
      } else {
        return false, former;
      }
    }

    /** The copy has the same contents in an array of its own. */
    constructor Copy(st: Stack<T>)
      requires st.Valid()
      ensures Valid() && fresh(items) && stacksize == st.stacksize && Contents() == st.Contents()
    {
      stacksize, top := st.stacksize, st.top;
      items := new T[st.stacksize];
      new;
      var i := 0;
      while i < top
        invariant 0 <= i <= top == st.top && Valid() && st.Valid() && fresh(items) && stacksize == st.stacksize
        invariant st.Contents() == old(st.Contents()) && items[..i] == st.items[..i]
      {
        items[i] := st.items[i];
        i := i + 1;
      }
    }

    /** operator=: assigning a stack to itself changes nothing, not even its array. */
    method Assign(st: Stack<T>)
      requires Valid() && st.Valid()
      modifies this
      ensures Valid() && stacksize == old(st.stacksize) && Contents() == old(st.Contents())
      ensures if this == st then items == old(items) else fresh(items)
    {
      if this == st {
        return;
      }
      stacksize, top := st.stacksize, st.top;
      items := new T[stacksize];
      var i := 0;
      while i < top
        invariant 0 <= i <= top == st.top && Valid() && st.Valid() && fresh(items) && stacksize == st.stacksize
        invariant st.Contents() == old(st.Contents()) && items[..i] == st.items[..i]
      {
        items[i] := st.items[i];
        i := i + 1;
      }
    }
  }

  // ---------- The program on positions of the in basket ----------

  /** order: the positions moved to the out basket; held: those on the stack, from the bottom up;
      next: the position to be pushed next. */
  datatype State = State(order: seq<nat>, held: seq<nat>, next: nat)

  const START := State([], [], 0)

  function Pushed(s: State): State
  {
    State(s.order, s.held + [s.next], s.next + 1)
  }

  function Popped(s: State): State
    requires s.held != []
  {
    var last := |s.held| - 1;
    State(s.order + [s.held[last]], s.held[..last], s.next)
  }

  /** One turn with n names and a stack of the given capacity. */
  function Turn(s: State, n: nat, capacity: int, coin: bool): State
  {
    if s.held == [] then Pushed(s)
    else if |s.held| == capacity then Popped(s)
    else if coin && s.next < n then Pushed(s)
    else Popped(s)
  }

  function Turns(s: State, n: nat, capacity: int, coins: seq<bool>): State
    decreases |coins|
  {
    if coins == [] then s else Turns(Turn(s, n, capacity, coins[0]), n, capacity, coins[1..])
  }

  lemma {:induction false} TurnsNext(s: State, n: nat, capacity: int, coins: seq<bool>, coin: bool)
    ensures Turns(s, n, capacity, coins + [coin]) == Turn(Turns(s, n, capacity, coins), n, capacity, coin)
    decreases |coins|
  {
    if coins == [] {
      assert [coin][1..] == [] && coins + [coin] == [coin];
    } else {
      assert (coins + [coin])[1..] == coins[1..] + [coin];
      TurnsNext(Turn(s, n, capacity, coins[0]), n, capacity, coins[1..], coin);
    }
  }

  // ---------- What every run does ----------

  predicate Increasing(q: seq<nat>)
  {
    forall i, j :: 0 <= i < j < |q| ==> q[i] < q[j]
  }

  predicate Distinct(q: seq<nat>)
  {
    forall i, j :: 0 <= i < j < |q| ==> q[i] != q[j]
  }

  /** No three outputs come in the order largest, smallest, middle. */
  predicate Avoids312(q: seq<nat>)
  {
    forall i, j, k :: 0 <= i < j < k < |q| ==> !(q[j] < q[k] < q[i])
  }

  /** Before the i-th output leaves, the positions up to it have been pushed and i of them have
      left, so that many others must fit on the stack. */
  predicate Fits(q: seq<nat>, capacity: int)
  {
    forall i :: 0 <= i < |q| ==> q[i] + 1 - i <= capacity
  }

  /** The positions moved out and those on the stack are together exactly the ones pushed. */
  ghost predicate Accounted(s: State)
  {
    && |s.order| + |s.held| == s.next
    && Increasing(s.held) && Distinct(s.order)
    && (forall i :: 0 <= i < |s.held| ==> s.held[i] < s.next && s.held[i] !in s.order)
    && (forall i :: 0 <= i < |s.order| ==> s.order[i] < s.next)
  }

  /** Nothing on the stack will complete a forbidden pattern. */
  ghost predicate Harmless(s: State)
  {
    && Avoids312(s.order)
    && (forall i, j, k :: 0 <= i < j < |s.order| && 0 <= k < |s.held| ==> !(s.order[j] < s.held[k] < s.order[i]))
  }

  lemma PushKeeps(s: State)
    requires Accounted(s) && Harmless(s)
    ensures Accounted(Pushed(s)) && Harmless(Pushed(s))
  {
  }

  lemma PopKeeps(s: State)
    requires Accounted(s) && Harmless(s) && s.held != []
    ensures Accounted(Popped(s)) && Harmless(Popped(s))
  {
    PopAccounted(s);
  }

  lemma PopAccounted(s: State)
    requires Accounted(s) && s.held != []
    ensures Accounted(Popped(s))
  {
  }

  lemma TurnKeeps(s: State, n: nat, capacity: int, coin: bool)
    requires capacity >= 1 && Accounted(s) && Harmless(s) && s.next <= n && |s.order| < n && |s.held| <= capacity
    requires Fits(s.order, capacity)
    ensures var t := Turn(s, n, capacity, coin);
            && Accounted(t) && Harmless(t) && t.next <= n && |t.order| <= n && |t.held| <= capacity
            && |t.order| + t.next == |s.order| + s.next + 1 && Fits(t.order, capacity)
  {
    if s.held != [] {
      PopKeeps(s);
    }
    PushKeeps(s);
  }

  predicate IsPermutation(q: seq<nat>, n: nat)
  {
    |q| == n && Distinct(q) && forall i :: 0 <= i < n ==> q[i] < n
  }

  /** q lists the names at the given positions of the in basket. */
  ghost predicate Lists<T>(q: seq<T>, input: seq<T>, positions: seq<nat>)
  {
    |q| == |positions| && forall i :: 0 <= i < |q| ==> positions[i] < |input| && q[i] == input[positions[i]]
  }

  /** The body of the loop. */
  method OneTurn<T(0)>(st: Stack<T>, input: seq<T>, out: array<T>, processed: nat, nextin: nat, coin: bool,
                       ghost s: State)
      returns (processed': nat, nextin': nat)
    requires st.Valid() && st.items != out && st.stacksize >= 1
    requires processed == |s.order| < |input| == out.Length && nextin == s.next <= |input|
    requires |s.order| + |s.held| == s.next
    requires Lists(st.Contents(), input, s.held) && Lists(out[..processed], input, s.order)
    modifies st`top, st.items, out
    ensures st.Valid()
    ensures var held := old(st.Contents());
            var pushes := held == [] || (|held| != st.stacksize && coin && nextin < |input|);
            if pushes then
              && nextin < |input| && processed' == processed && nextin' == nextin + 1
              && st.Contents() == held + [input[nextin]] && out[..] == old(out[..])
            else
              && processed' == processed + 1 && nextin' == nextin
              && st.Contents() + [held[|held| - 1]] == held && out[..] == old(out[..])[processed := held[|held| - 1]]
    ensures var t := Turn(s, |input|, st.stacksize, coin);
            && processed' == |t.order| <= |input| && nextin' == t.next
            && Lists(st.Contents(), input, t.held) && Lists(out[..processed'], input, t.order)
  {
    processed', nextin' := processed, nextin;
    ghost var moved := out[..processed];
    if st.IsEmpty() {
      var _ := st.Push(input[nextin]);
      nextin' := nextin + 1;
    } else if st.IsFull() {
      var _, item := st.Pop(out[processed]);
      out[processed] := item;
      processed' := processed + 1;
      assert out[..processed'] == moved + [item];
    } else if coin && nextin < |input| {
      var _ := st.Push(input[nextin]);
      nextin' := nextin + 1;
    } else {
      var _, item := st.Pop(out[processed]);
      out[processed] := item;
      processed' := processed + 1;
      assert out[..processed'] == moved + [item];
    }
  }

  /** The loop of the program, with the coins it throws. It ends after exactly two turns for each
      name and never leaves the bounds of the baskets or of the stack. */
  method MoveNames<T(0)>(input: seq<T>, stacksize: int, coins: seq<bool>)
      returns (out: array<T>, ghost order: seq<nat>, turns: nat)
    requires stacksize >= 1
    requires |coins| >= 2 * |input|
    ensures turns == 2 * |input|
    ensures order == Turns(START, |input|, stacksize, coins[..turns]).order
    ensures IsPermutation(order, |input|) && Avoids312(order) && Fits(order, stacksize)
    ensures Lists(out[..], input, order)
  {
    var st := new Stack<T>(stacksize);
    out := new T[|input|];
    ghost var s;
    turns, s := MoveAll(st, input, out, coins);
    order := s.order;
    RunsAreGood(START, |input|, stacksize, coins[..turns]);
  }

  /** The loop itself. */
  method MoveAll<T(0)>(st: Stack<T>, input: seq<T>, out: array<T>, coins: seq<bool>)
      returns (turns: nat, ghost s: State)
    requires st.Valid() && st.Contents() == [] && st.stacksize >= 1 && st.items != out
    requires out.Length == |input| && |coins| >= 2 * |input|
    modifies st`top, st.items, out
    ensures turns == 2 * |input| && s == Turns(START, |input|, st.stacksize, coins[..turns])
    ensures Lists(out[..], input, s.order)
  {
    var num := |input|;
    var processed, nextin := 0, 0;
    turns := 0;
    s := START;
    assert coins[..0] == [];
    while processed < num
      invariant st.Valid() && st.items == old(st.items) && st.stacksize == old(st.stacksize)
      invariant out.Length == num && processed == |s.order| <= num && nextin == s.next <= num
      invariant |s.order| + |s.held| == s.next && |s.held| <= st.stacksize
      invariant turns == processed + nextin && s == Turns(START, num, st.stacksize, coins[..turns])
      invariant Lists(st.Contents(), input, s.held) && Lists(out[..processed], input, s.order)
      decreases 2 * num - turns
    {
      assert coins[..turns + 1] == coins[..turns] + [coins[turns]];
      TurnsNext(START, num, st.stacksize, coins[..turns], coins[turns]);
      processed, nextin := OneTurn(st, input, out, processed, nextin, coins[turns], s);
      s := Turn(s, num, st.stacksize, coins[turns]);
      turns := turns + 1;
    }
    assert out[..processed] == out[..];
  }

  // ---------- Which orders the stack can produce ----------

  /** The state is on the way to the order p: it has produced a prefix, and it has pushed no more
      than it had to for the next output. */
  ghost predicate OnTheWay(s: State, p: seq<nat>, n: nat)
  {
    && IsPermutation(p, n)
    && Accounted(s) && s.next <= n
    && |s.order| <= n && s.order == p[..|s.order|]
    && (|s.order| == n || s.next <= p[|s.order|] + 1 || (s.next - 1) in s.order)
  }

  /** If the next output has been pushed, it is on top. */
  lemma NextOutputIsOnTop(s: State, p: seq<nat>, n: nat)
    requires OnTheWay(s, p, n) && Avoids312(p) && |s.order| < n && p[|s.order|] < s.next
    ensures s.held != [] && s.held[|s.held| - 1] == p[|s.order|]
  {
    var k := |s.order|;
    var t := p[k];
    assert t !in s.order by {
      forall i | 0 <= i < k
        ensures s.order[i] != t
      {
        assert s.order[i] == p[i];
      }
    }
    EveryPushedIsSomewhere(s, t);
    if s.held[|s.held| - 1] != t {
      var i, m := ForbiddenPattern(s, p, n);
    }
  }

  /** If another position is on top, three outputs come in the forbidden order. */
  lemma ForbiddenPattern(s: State, p: seq<nat>, n: nat) returns (i: nat, m: nat)
    requires OnTheWay(s, p, n) && |s.order| < n && p[|s.order|] < s.next
    requires p[|s.order|] in s.held && s.held[|s.held| - 1] != p[|s.order|]
    ensures i < |s.order| < m < n && p[|s.order|] < p[m] < p[i]
  {
    i :| 0 <= i < |s.order| && s.order[i] == s.next - 1;
    m := TopComesLater(s, p, n);
    assert p[i] == s.order[i];
  }

  /** What is on top of the stack is one of the remaining outputs. */
  lemma TopComesLater(s: State, p: seq<nat>, n: nat) returns (m: nat)
    requires OnTheWay(s, p, n) && s.held != []
    ensures |s.order| <= m < n && p[m] == s.held[|s.held| - 1]
  {
    var top := s.held[|s.held| - 1];
    AllNumbersOccur(p, n, top);
    m :| 0 <= m < n && p[m] == top;
    assert forall i :: 0 <= i < |s.order| ==> p[i] == s.order[i];
  }

  /** n distinct numbers below n are all the numbers below n. */
  lemma {:induction false} AllNumbersOccur(q: seq<nat>, n: nat, x: nat)
    requires |q| == n && Distinct(q) && (forall i :: 0 <= i < n ==> q[i] < n) && x < n
    ensures x in q
    decreases n
  {
    if x !in q {
      // drop the last element and rename n - 1, which can no longer be missed, to it
      var last := q[n - 1];
      var r := seq(n - 1, i requires 0 <= i < n - 1 => if q[i] == n - 1 then last else q[i]);
      if x == n - 1 {
        AllNumbersOccur(r, n - 1, last);
      } else {
        AllNumbersOccur(r, n - 1, x);
      }
    }
  }

  lemma EveryPushedIsSomewhere(s: State, x: nat)
    requires Accounted(s) && x < s.next
    ensures x in s.order || x in s.held
  {
    var q := s.order + s.held;
    forall i, j | 0 <= i < j < |q|
      ensures q[i] != q[j]
    {
      if i < |s.order| <= j {
        assert s.held[j - |s.order|] !in s.order;
      }
    }
    AllNumbersOccur(q, s.next, x);
  }

  lemma PushStaysOnTheWay(s: State, p: seq<nat>, n: nat)
    requires OnTheWay(s, p, n) && |s.order| < n && p[|s.order|] >= s.next
    ensures OnTheWay(Pushed(s), p, n)
  {
  }

  lemma PopStaysOnTheWay(s: State, p: seq<nat>, n: nat)
    requires OnTheWay(s, p, n) && Avoids312(p) && |s.order| < n && p[|s.order|] < s.next
    ensures s.held != [] && OnTheWay(Popped(s), p, n)
  {
    NextOutputIsOnTop(s, p, n);
    PopAccounted(s);
    LastPushedIsOut(s, p, n);
  }

  /** When the next output leaves, the position pushed last has left. */
  lemma LastPushedIsOut(s: State, p: seq<nat>, n: nat)
    requires OnTheWay(s, p, n) && |s.order| < n && p[|s.order|] < s.next
    requires s.held != [] && s.held[|s.held| - 1] == p[|s.order|]
    ensures Popped(s).order == p[..|s.order| + 1] && s.next - 1 in Popped(s).order
  {
    var t, k := Popped(s), |s.order|;
    assert t.order == s.order + [p[k]];
    if s.next - 1 in s.order {
      var i :| 0 <= i < k && s.order[i] == s.next - 1;
      assert t.order[i] == s.next - 1;
    } else {
      assert t.order[k] == s.next - 1;
    }
  }

  /** From any state on the way to p some coins lead to it. */
  lemma {:induction false} Reach(s: State, p: seq<nat>, n: nat, capacity: int) returns (coins: seq<bool>)
    requires OnTheWay(s, p, n) && Avoids312(p) && Fits(p, capacity)
    ensures |coins| == 2 * n - |s.order| - s.next
    ensures Turns(s, n, capacity, coins).order == p
    decreases 2 * n - |s.order| - s.next
  {
    var k := |s.order|;
    if k == n {
      coins := [];
      assert s.order == p;
    } else {
      var coin := p[k] >= s.next;
      if coin {
        PushStaysOnTheWay(s, p, n);
      } else {
        PopStaysOnTheWay(s, p, n);
      }
      assert coin ==> |s.held| < capacity;
      var t := if coin then Pushed(s) else Popped(s);
      assert t == Turn(s, n, capacity, coin);
      var rest := Reach(t, p, n, capacity);
      coins := [coin] + rest;
      assert coins[1..] == rest;
    }
  }

  /** The coins make the program produce exactly the orders that avoid the pattern and for which
      the stack is high enough. */
  lemma ReachableOrders(p: seq<nat>, n: nat, capacity: int)
    requires capacity >= 1
    ensures (exists coins :: |coins| == 2 * n && Turns(START, n, capacity, coins).order == p) <==>
            IsPermutation(p, n) && Avoids312(p) && Fits(p, capacity)
  {
    if IsPermutation(p, n) && Avoids312(p) && Fits(p, capacity) {
      var coins := Reach(START, p, n, capacity);
    }
    forall coins | |coins| == 2 * n
      ensures var q := Turns(START, n, capacity, coins).order; IsPermutation(q, n) && Avoids312(q) && Fits(q, capacity)
    {
      RunsAreGood(START, n, capacity, coins);
    }
  }

  lemma {:induction false} RunsAreGood(s: State, n: nat, capacity: int, coins: seq<bool>)
    requires capacity >= 1 && Accounted(s) && Harmless(s) && s.next <= n && |s.held| <= capacity
    requires Fits(s.order, capacity)
    requires |coins| == 2 * n - |s.order| - s.next
    ensures var q := Turns(s, n, capacity, coins).order; IsPermutation(q, n) && Avoids312(q) && Fits(q, capacity)
    decreases |coins|
  {
    if coins != [] {
      TurnKeeps(s, n, capacity, coins[0]);
      RunsAreGood(Turn(s, n, capacity, coins[0]), n, capacity, coins[1..]);
    }
  }
}
