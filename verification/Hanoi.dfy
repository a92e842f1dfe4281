/** The Towers of Hanoi program: the moves it prints are legal and carry the tower, no legal
    sequence of moves is shorter, and every other one of that length is the printed one. */
module Hanoi {
  import opened Arithmetic

  datatype Peg = PegA | PegB | PegC

  /** One printed line "x->y". */
  datatype Move = Move(source: Peg, target: Peg)

  // ---------- The program ----------

  /** The moves printed by hanoi(n, a, b, c). The program does not terminate for n == 0. */
  function Solve(n: nat, a: Peg, b: Peg, c: Peg): (moves: seq<Move>)
    requires n >= 1
  {
    if n == 1 then [Move(a, c)]
    else Solve(n - 1, a, c, b) + [Move(a, c)] + Solve(n - 1, b, a, c)
  }

  // ---------- The game ----------

  /** A position of the game: s[d] is the peg that holds disk d; disk 0 is the smallest.
      On each peg the smaller disks lie above the larger ones. */
  type Position = seq<Peg>

  /** The disk on top of peg p, or |s| when the peg is empty. */
  function Top(s: Position, p: Peg): (d: nat)
    ensures d <= |s|
    ensures d < |s| ==> s[d] == p
    ensures forall k :: 0 <= k < d ==> s[k] != p
  {
    if s == [] then 0
    else if s[0] == p then 0
    else
      var d := Top(s[1..], p);
      assert forall k :: 0 < k < |s| ==> s[k] == s[1..][k - 1];
      d + 1
  }

  /** The source holds a disk, and the top of the target is larger or missing. */
  predicate Legal(s: Position, m: Move)
  {
    Top(s, m.source) < Top(s, m.target)
  }

  function After(s: Position, m: Move): (t: Position)
    requires Legal(s, m)
    ensures |t| == |s|
  {
    s[Top(s, m.source) := m.target]
  }

  /** The moves ms can be played in order from s and all are legal. */
  predicate Playable(s: Position, ms: seq<Move>)
    decreases |ms|
  {
    ms == [] || (Legal(s, ms[0]) && Playable(After(s, ms[0]), ms[1..]))
  }

  /** The position after playing ms from s. */
  function Play(s: Position, ms: seq<Move>): (t: Position)
    requires Playable(s, ms)
    ensures |t| == |s|
    decreases |ms|
  {
    if ms == [] then s else Play(After(s, ms[0]), ms[1..])
  }

  /** The n smallest disks all lie on peg p. */
  predicate Tower(s: Position, n: nat, p: Peg)
    requires n <= |s|
  {
    forall d :: 0 <= d < n ==> s[d] == p
  }

  /** s with the n smallest disks put on peg p. */
  function Carried(s: Position, n: nat, p: Peg): (t: Position)
    requires n <= |s|
    ensures |t| == |s|
    ensures forall d :: 0 <= d < |s| ==> t[d] == if d < n then p else s[d]
  {
    seq(|s|, d requires 0 <= d < |s| => if d < n then p else s[d])
  }

  // ---------- The stacks of a position ----------

  /** The disks on peg p that are at least k, from the top down. */
  function Stack(s: Position, p: Peg, k: nat): (ds: seq<nat>)
    requires k <= |s|
    ensures forall i :: 0 <= i < |ds| ==> k <= ds[i] < |s| && s[ds[i]] == p
    decreases |s| - k
  {
    if k == |s| then []
    else if s[k] == p then [k] + Stack(s, p, k + 1)
    else Stack(s, p, k + 1)
  }

  lemma {:induction false} StackSkips(s: Position, p: Peg, k: nat, d: nat)
    requires k <= d <= |s|
    requires forall j :: k <= j < d ==> s[j] != p
    ensures Stack(s, p, k) == Stack(s, p, d)
    decreases d - k
  {
    if k < d {
      StackSkips(s, p, k + 1, d);
    }
  }

  lemma {:induction false} StackDependsOnPeg(s: Position, t: Position, p: Peg, k: nat)
    requires |s| == |t| && k <= |s|
    requires forall j :: k <= j < |s| ==> (s[j] == p <==> t[j] == p)
    ensures Stack(s, p, k) == Stack(t, p, k)
    decreases |s| - k
  {
    if k < |s| {
      StackDependsOnPeg(s, t, p, k + 1);
    }
  }

  /** A legal move pops the top disk of its source and pushes it on its target, where it
      covers only a larger disk; the third peg keeps its stack. */
  lemma LegalMovesTopDisk(s: Position, m: Move, other: Peg)
    requires Legal(s, m)
    requires other != m.source && other != m.target
    ensures var t, d := After(s, m), Top(s, m.source);
            && Stack(s, m.source, 0) == [d] + Stack(t, m.source, 0)
            && Stack(t, m.target, 0) == [d] + Stack(s, m.target, 0)
            && Stack(t, other, 0) == Stack(s, other, 0)
    ensures Stack(s, m.target, 0) != [] ==> Top(s, m.source) < Stack(s, m.target, 0)[0]
  {
    var t, d := After(s, m), Top(s, m.source);
    StackSkips(s, m.source, 0, d);
    StackSkips(t, m.source, 0, d + 1);
    StackDependsOnPeg(s, t, m.source, d + 1);
    StackSkips(t, m.target, 0, d);
    StackSkips(s, m.target, 0, d + 1);
    StackDependsOnPeg(s, t, m.target, d + 1);
    StackDependsOnPeg(s, t, other, 0);
  }

  /** Conversely, every pop and push that never covers a smaller disk is a legal move. */
  lemma TopDiskMovesAreLegal(s: Position, m: Move)
    requires m.source != m.target
    requires Stack(s, m.source, 0) != []
    requires Stack(s, m.target, 0) != [] ==> Stack(s, m.source, 0)[0] < Stack(s, m.target, 0)[0]
    ensures Legal(s, m)
  {
    StackSkips(s, m.source, 0, Top(s, m.source));
    StackSkips(s, m.target, 0, Top(s, m.target));
  }

  // ---------- The moves are legal and carry the tower ----------

  lemma {:induction false} PlayConcat(s: Position, ms: seq<Move>, ns: seq<Move>)
    requires Playable(s, ms)
    ensures Playable(s, ms + ns) <==> Playable(Play(s, ms), ns)
    ensures Playable(s, ms + ns) ==> Play(s, ms + ns) == Play(Play(s, ms), ns)
    decreases |ms|
  {
    if ms == [] {
      assert ms + ns == ns;
    } else {
      PlayConcat(After(s, ms[0]), ms[1..], ns);
      assert (ms + ns)[1..] == ms[1..] + ns;
    }
  }

  lemma PlayThree(s: Position, ms: seq<Move>, u: Position, ns: seq<Move>, v: Position, os: seq<Move>)
    requires Playable(s, ms) && Play(s, ms) == u
    requires Playable(u, ns) && Play(u, ns) == v
    requires Playable(v, os)
    ensures Playable(s, ms + ns + os) && Play(s, ms + ns + os) == Play(v, os)
  {
    PlayConcat(s, ms, ns);
    PlayConcat(s, ms + ns, os);
  }

  lemma TopIs(s: Position, p: Peg, d: nat)
    requires d <= |s|
    requires d < |s| ==> s[d] == p
    requires forall k :: 0 <= k < d ==> s[k] != p
    ensures Top(s, p) == d
  {
  }

  lemma MiddleMove(s: Position, d: nat, a: Peg, c: Peg)
    requires d < |s| && a != c && s[d] == a
    requires forall k :: 0 <= k < d ==> s[k] != a && s[k] != c
    ensures Playable(s, [Move(a, c)]) && Play(s, [Move(a, c)]) == s[d := c]
  {
    TopIs(s, a, d);
    var m := Move(a, c);
    assert Legal(s, m);
    assert [m][1..] == [] && Playable(After(s, m), []);
  }

  /** The moves are legal from s, carry the n smallest disks to p and leave the others where they are. */
  predicate Carries(s: Position, ms: seq<Move>, n: nat, p: Peg)
    requires n <= |s|
  {
    Playable(s, ms) && Play(s, ms) == Carried(s, n, p)
  }

  lemma CarryByParts(n: nat, a: Peg, b: Peg, c: Peg, s: Position, first: seq<Move>, last: seq<Move>)
    requires 1 <= n <= |s|
    requires a != b && b != c && a != c
    requires Tower(s, n, a)
    requires Carries(s, first, n - 1, b) && Carries(Carried(s, n - 1, b)[n - 1 := c], last, n - 1, c)
    ensures Carries(s, first + [Move(a, c)] + last, n, c)
  {
    var u := Carried(s, n - 1, b);
    var v := u[n - 1 := c];
    MiddleMove(u, n - 1, a, c);
    PlayThree(s, first, u, [Move(a, c)], v, last);
    assert Carried(v, n - 1, c) == Carried(s, n, c);
  }

  /** Whatever larger disks lie on the three pegs, the printed moves carry the n smallest
      disks from a to c by legal moves and leave every other disk, hence peg b, as it was. */
  lemma {:induction false} SolveCarriesTower(n: nat, a: Peg, b: Peg, c: Peg, s: Position)
    requires 1 <= n <= |s|
    requires a != b && b != c && a != c
    requires Tower(s, n, a)
    ensures Carries(s, Solve(n, a, b, c), n, c)
    decreases n
  {
    if n == 1 {
      MiddleMove(s, 0, a, c);
      assert s[0 := c] == Carried(s, 1, c);
    } else {
      SolveCarriesTower(n - 1, a, c, b, s);
      SolveCarriesTower(n - 1, b, a, c, Carried(s, n - 1, b)[n - 1 := c]);
      CarryByParts(n, a, b, c, s, Solve(n - 1, a, c, b), Solve(n - 1, b, a, c));
    }
  }

  lemma {:induction false} SolveLength(n: nat, a: Peg, b: Peg, c: Peg)
    requires n >= 1
    ensures |Solve(n, a, b, c)| == Pow2(n) - 1
  {
    if n > 1 {
      SolveLength(n - 1, a, c, b);
      SolveLength(n - 1, b, a, c);
    }
  }

  // ---------- No legal sequence is shorter ----------

  /** The index of the first move of disk d. */
  lemma {:induction false} FirstMoveOf(s: Position, ms: seq<Move>, d: nat) returns (i: nat)
    requires d < |s| && Playable(s, ms)
    requires Play(s, ms)[d] != s[d]
    ensures i < |ms| && Playable(s, ms[..i]) && Play(s, ms[..i])[d] == s[d]
    ensures Legal(Play(s, ms[..i]), ms[i]) && Top(Play(s, ms[..i]), ms[i].source) == d
    decreases |ms|
  {
    if Top(s, ms[0].source) == d {
      i := 0;
    } else {
      var j := FirstMoveOf(After(s, ms[0]), ms[1..], d);
      i := j + 1;
      assert ms[..i][1..] == ms[1..][..j];
    }
  }

  /** The index of the last move of disk d. */
  lemma {:induction false} LastMoveOf(s: Position, ms: seq<Move>, d: nat) returns (i: nat)
    requires d < |s| && Playable(s, ms)
    requires Play(s, ms)[d] != s[d]
    ensures i < |ms| && Playable(s, ms[..i])
    ensures Legal(Play(s, ms[..i]), ms[i]) && Top(Play(s, ms[..i]), ms[i].source) == d
    ensures Play(s, ms)[d] == ms[i].target
    decreases |ms|
  {
    var t := After(s, ms[0]);
    if Play(s, ms)[d] == t[d] {
      i := 0;
    } else {
      var j := LastMoveOf(t, ms[1..], d);
      i := j + 1;
      assert ms[..i][1..] == ms[1..][..j];
    }
  }

  lemma SplitPlay(s: Position, ms: seq<Move>, i: nat)
    requires Playable(s, ms) && i < |ms|
    requires Playable(s, ms[..i])
    ensures Legal(Play(s, ms[..i]), ms[i])
    ensures Playable(After(Play(s, ms[..i]), ms[i]), ms[i + 1..])
    ensures Play(After(Play(s, ms[..i]), ms[i]), ms[i + 1..]) == Play(s, ms)
  {
    assert ms == ms[..i] + ms[i..];
    PlayConcat(s, ms[..i], ms[i..]);
    assert ms[i..][1..] == ms[i + 1..];
  }

  function Third(p: Peg, q: Peg): (r: Peg)
    requires p != q
    ensures r != p && r != q
  {
    if p != PegA && q != PegA then PegA else if p != PegB && q != PegB then PegB else PegC
  }

  /** The smaller disks stand aside, all on one peg, whenever disk d moves. */
  lemma SmallerDisksStandAside(s: Position, m: Move)
    requires Legal(s, m)
    ensures Tower(s, Top(s, m.source), Third(m.source, m.target))
    ensures Tower(After(s, m), Top(s, m.source), Third(m.source, m.target))
  {
  }

  /** Any legal sequence that takes the n smallest disks from one peg to another, whatever it
      does with the larger disks, makes at least 2^n - 1 moves. */
  lemma {:induction false} NoShorterSequence(n: nat, s: Position, ms: seq<Move>, p: Peg, q: Peg)
    requires n <= |s| && p != q
    requires Playable(s, ms)
    requires Tower(s, n, p) && Tower(Play(s, ms), n, q)
    ensures |ms| >= Pow2(n) - 1
    decreases n, 1
  {
    if n > 0 {
      var d := n - 1;
      var i := FirstMoveOf(s, ms, d);
      var u := Play(s, ms[..i]);
      SmallerDisksStandAside(u, ms[i]);
      NoShorterSequence(d, s, ms[..i], p, Third(ms[i].source, ms[i].target));
      SplitPlay(s, ms, i);
      NoShorterReturn(n, After(u, ms[i]), ms[i + 1..], ms[i].source, q);
    }
  }

  /** After the first move of the largest of n disks, the others still have to be brought to q. */
  lemma {:induction false} NoShorterReturn(n: nat, s: Position, ms: seq<Move>, p: Peg, q: Peg)
    requires 0 < n <= |s| && p != q && p != s[n - 1]
    requires Playable(s, ms)
    requires Tower(s, n - 1, Third(p, s[n - 1])) && Tower(Play(s, ms), n, q)
    ensures |ms| >= Pow2(n - 1) - 1
    ensures |ms| == Pow2(n - 1) - 1 ==> s[n - 1] == q
    decreases n, 0
  {
    var d := n - 1;
    if s[d] == q {
      NoShorterSequence(d, s, ms, Third(p, q), q);
    } else {
      var j := LastMoveOf(s, ms, d);
      var v := Play(s, ms[..j]);
      SmallerDisksStandAside(v, ms[j]);
      SplitPlay(s, ms, j);
      NoShorterSequence(d, After(v, ms[j]), ms[j + 1..], Third(ms[j].source, ms[j].target), q);
    }
  }

  /** The printed sequence is the only one of that length. */
  lemma {:induction false} ShortestSequenceIsUnique(n: nat, s: Position, ms: seq<Move>, a: Peg, b: Peg, c: Peg)
    requires 1 <= n <= |s|
    requires a != b && b != c && a != c
    requires Playable(s, ms)
    requires Tower(s, n, a) && Tower(Play(s, ms), n, c)
    requires |ms| <= Pow2(n) - 1
    ensures ms == Solve(n, a, b, c)
    decreases n
  {
    var d := n - 1;
    var i := ShortestSplits(n, s, ms, a, b, c);
    if n > 1 {
      var v := After(Play(s, ms[..i]), ms[i]);
      ShortestSequenceIsUnique(d, s, ms[..i], a, c, b);
      ShortestSequenceIsUnique(d, v, ms[i + 1..], b, a, c);
    }
    assert ms == ms[..i] + [ms[i]] + ms[i + 1..];
  }

  /** A shortest sequence stacks the n-1 smallest disks on b, moves the largest and brings them back. */
  lemma ShortestSplits(n: nat, s: Position, ms: seq<Move>, a: Peg, b: Peg, c: Peg) returns (i: nat)
    requires 1 <= n <= |s|
    requires a != b && b != c && a != c
    requires Playable(s, ms)
    requires Tower(s, n, a) && Tower(Play(s, ms), n, c)
    requires |ms| <= Pow2(n) - 1
    ensures i == |ms| - 1 - i == Pow2(n - 1) - 1
    ensures ms[i] == Move(a, c)
    ensures Playable(s, ms[..i]) && Tower(Play(s, ms[..i]), n - 1, b)
    ensures Legal(Play(s, ms[..i]), ms[i])
    ensures var v := After(Play(s, ms[..i]), ms[i]);
            Tower(v, n - 1, b) && Playable(v, ms[i + 1..]) && Play(v, ms[i + 1..]) == Play(s, ms)
  {
    i := FirstMoveOf(s, ms, n - 1);
    var u := Play(s, ms[..i]);
    SmallerDisksStandAside(u, ms[i]);
    NoShorterSequence(n - 1, s, ms[..i], a, Third(ms[i].source, ms[i].target));
    SplitPlay(s, ms, i);
    NoShorterReturn(n, After(u, ms[i]), ms[i + 1..], a, c);
  }
}
