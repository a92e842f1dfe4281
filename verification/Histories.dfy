/** Machines that move by events, and the histories of events they allow. */
module Histories {

  /** When an event may happen in a state, and what it does to it. */
  datatype Machine<!S, !E> = Machine(allowed: (S, E) -> bool, apply: (S, E) -> S)

  /** The state after the events es, from s. */
  function After<S, E>(m: Machine<S, E>, s: S, es: seq<E>): S
    decreases |es|
  {
    if es == [] then s else After(m, m.apply(s, es[0]), es[1..])
  }

  /** Every event is allowed when it happens. */
  predicate Lawful<S, E>(m: Machine<S, E>, s: S, es: seq<E>)
    decreases |es|
  {
    es == [] || (m.allowed(s, es[0]) && Lawful(m, m.apply(s, es[0]), es[1..]))
  }

  lemma {:induction false} Concat<S, E>(m: Machine<S, E>, s: S, first: seq<E>, later: seq<E>)
    ensures After(m, s, first + later) == After(m, After(m, s, first), later)
    ensures Lawful(m, s, first + later) <==> Lawful(m, s, first) && Lawful(m, After(m, s, first), later)
    decreases |first|
  {
    if first == [] {
      assert first + later == later;
    } else {
      assert (first + later)[1..] == first[1..] + later;
      Concat(m, m.apply(s, first[0]), first[1..], later);
    }
  }

  lemma One<S, E>(m: Machine<S, E>, s: S, e: E)
    ensures After(m, s, [e]) == m.apply(s, e)
    ensures Lawful(m, s, [e]) <==> m.allowed(s, e)
  {
    assert [e][1..] == [];
  }

  /** One more event. */
  lemma Extend<S, E>(m: Machine<S, E>, s: S, es: seq<E>, e: E)
    ensures After(m, s, es + [e]) == m.apply(After(m, s, es), e)
    ensures Lawful(m, s, es + [e]) <==> Lawful(m, s, es) && m.allowed(After(m, s, es), e)
  {
    Concat(m, s, es, [e]);
    One(m, After(m, s, es), e);
  }

  /** The first k events and the others. */
  lemma Split<S, E>(m: Machine<S, E>, s: S, es: seq<E>, k: nat)
    requires Lawful(m, s, es) && k <= |es|
    ensures Lawful(m, s, es[..k]) && Lawful(m, After(m, s, es[..k]), es[k..])
    ensures After(m, After(m, s, es[..k]), es[k..]) == After(m, s, es)
  {
    assert es == es[..k] + es[k..];
    Concat(m, s, es[..k], es[k..]);
  }

  /** Every event of a lawful history was allowed when it happened. */
  lemma At<S, E>(m: Machine<S, E>, s: S, es: seq<E>, k: nat)
    requires Lawful(m, s, es) && k < |es|
    ensures Lawful(m, s, es[..k]) && m.allowed(After(m, s, es[..k]), es[k])
    ensures After(m, s, es[..k + 1]) == m.apply(After(m, s, es[..k]), es[k])
  {
    Split(m, s, es, k + 1);
    assert es[..k + 1] == es[..k] + [es[k]];
    Extend(m, s, es[..k], es[k]);
  }

  /** The events from i to j. */
  lemma Slice<S, E>(m: Machine<S, E>, s: S, es: seq<E>, i: nat, j: nat)
    requires Lawful(m, s, es) && i <= j <= |es|
    ensures Lawful(m, After(m, s, es[..i]), es[i..j])
    ensures After(m, After(m, s, es[..i]), es[i..j]) == After(m, s, es[..j])
  {
    Split(m, s, es, j);
    Split(m, s, es[..j], i);
    assert es[..j][..i] == es[..i] && es[..j][i..] == es[i..j];
  }

  /** One event takes the machine from s to t. */
  ghost predicate Does<S, E>(m: Machine<S, E>, s: S, e: E, t: S)
  {
    m.allowed(s, e) && t == m.apply(s, e)
  }

  /** The history is lawful and leads to s. */
  ghost predicate Recorded<S, E>(m: Machine<S, E>, start: S, history: seq<E>, s: S)
  {
    Lawful(m, start, history) && After(m, start, history) == s
  }

  lemma RecordNext<S, E>(m: Machine<S, E>, start: S, history: seq<E>, s: S, e: E)
    requires Recorded(m, start, history, s) && m.allowed(s, e)
    ensures Recorded(m, start, history + [e], m.apply(s, e))
  {
    Extend(m, start, history, e);
  }

  // ---------- Counting and least elements ----------

  function Count<E>(es: seq<E>, p: E -> bool): nat
    decreases |es|
  {
    if es == [] then 0 else (if p(es[0]) then 1 else 0) + Count(es[1..], p)
  }

  lemma {:induction false} CountExtend<E>(es: seq<E>, e: E, p: E -> bool)
    ensures Count(es + [e], p) == Count(es, p) + if p(e) then 1 else 0
    decreases |es|
  {
    if es == [] {
      assert [e][1..] == [] && es + [e] == [e];
    } else {
      assert (es + [e])[1..] == es[1..] + [e];
      CountExtend(es[1..], e, p);
    }
  }

  /** If every event that counts uses up some of a budget and none adds to it, as long as inv holds,
      no more events count than the budget allows. */
  lemma {:induction false} CountIsBounded<S(!new), E(!new)>(m: Machine<S, E>, s: S, es: seq<E>, fits: E -> bool,
      inv: S -> bool, p: E -> bool, budget: S -> nat)
    requires Lawful(m, s, es) && inv(s) && forall e :: e in es ==> fits(e)
    requires forall t, e :: inv(t) && fits(e) && m.allowed(t, e) ==>
               inv(m.apply(t, e)) && (if p(e) then 1 else 0) + budget(m.apply(t, e)) <= budget(t)
    ensures Count(es, p) <= budget(s) && inv(After(m, s, es))
    decreases |es|
  {
    if es != [] {
      CountIsBounded(m, m.apply(s, es[0]), es[1..], fits, inv, p, budget);
    }
  }

  /** A heap has a top. */
  lemma {:induction false} LeastExists<T>(heap: multiset<T>, due: T -> int)
    requires heap != multiset{}
    ensures exists next :: next in heap && forall t :: t in heap ==> due(next) <= due(t)
    decreases |heap|
  {
    var u :| u in heap;
    var rest := heap - multiset{u};
    assert forall t :: t in heap ==> t == u || t in rest;
    assert forall t :: t in rest ==> t in heap;
    if rest == multiset{} {
      assert u in heap && forall t :: t in heap ==> due(u) <= due(t);
    } else {
      LeastExists(rest, due);
      var v :| v in rest && forall t :: t in rest ==> due(v) <= due(t);
      var next := if due(u) <= due(v) then u else v;
      assert next in heap && forall t :: t in heap ==> due(next) <= due(t);
    }
  }
}
