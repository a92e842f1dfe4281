/** The reference-counted SmartPtr. A ghost ledger records which SmartPtrs are alive and what they
    hold, which objects were handed over to them, and what has been deleted. Deleting something
    twice violates a precondition. */
module SmartPtr {

  const WORD64: int := 0x1_0000_0000_0000_0000
  const WORD32: int := 0x1_0000_0000

  /** The most SmartPtrs that may share an object: Release cuts the 64-bit count to 32 bits. */
  const MAX_OWNERS: nat := 0x1_0000_0000

  function Successor(n: int): int
  {
    if n < WORD64 - 1 then n + 1 else 0
  }

  function Predecessor(n: int): int
  {
    if n > 0 then n - 1 else WORD64 - 1
  }

  /** The unsigned result of AddRef and Release: the low 32 bits of the count. */
  function Low32(n: int): int
  {
    if 0 <= n < WORD32 then n else n % WORD32
  }

  /** Release reports the last owner exactly when the count it finds is 1 modulo 2^32. */
  lemma ReleaseReportsLast(n: int)
    requires 1 <= n < WORD64
    ensures Low32(Predecessor(n)) == 0 <==> n % WORD32 == 1
    ensures n <= MAX_OWNERS ==> (Low32(Predecessor(n)) == 0 <==> n == 1)
    ensures n == MAX_OWNERS + 1 ==> Low32(Predecessor(n)) == 0
  {
    assert n == (n / WORD32) * WORD32 + n % WORD32;
    assert n - 1 == ((n - 1) / WORD32) * WORD32 + (n - 1) % WORD32;
  }

  class KRefCount {
    var count: int

    constructor ()
      ensures count == 0
    {
      count := 0;
    }

    method AddRef() returns (r: int)
      modifies this
      ensures count == Successor(old(count)) && r == Low32(count)
      ensures 0 <= old(count) < 0x1_0000_0000_0000_0000 ==>
                count == (old(count) + 1) % 0x1_0000_0000_0000_0000 && r == count % 0x1_0000_0000
    {
      count := Successor(count);
      r := Low32(count);
    }

    method Release() returns (r: int)
      modifies this
      ensures count == Predecessor(old(count)) && r == Low32(count)
      ensures 0 <= old(count) < 0x1_0000_0000_0000_0000 ==>
                count == (old(count) - 1) % 0x1_0000_0000_0000_0000 && r == count % 0x1_0000_0000
    {
      count := Predecessor(count);
      r := Low32(count);
    }
  }

  /** An object managed by SmartPtrs. */
  class Object {
    constructor () {}
  }

  // ---------- The ledger ----------

  /** shares: the count each live SmartPtr uses; count: the value of every count allocated so far,
      and target: the object guarded by it; guard: for each object handed over so far, its
      count; freed, freedCounts: what has been deleted. */
  datatype Ledger = Ledger(
    shares: map<SmartPtr, KRefCount>,
    count: map<KRefCount, int>,
    target: map<KRefCount, Object?>,
    guard: map<Object, KRefCount>,
    freed: set<Object>,
    freedCounts: set<KRefCount>)

  /** The live SmartPtrs that use the count c. */
  ghost function Holders(l: Ledger, c: KRefCount): set<SmartPtr>
  {
    set p | p in l.shares && l.shares[p] == c
  }

  /** Each count is the number of live SmartPtrs that use it. */
  ghost predicate CountsAgree(l: Ledger)
  {
    && (forall p :: p in l.shares ==> l.shares[p] in l.count)
    && (forall c :: c in l.count ==> l.count[c] == |Holders(l, c)| <= MAX_OWNERS)
  }

  /** Every object has one count of its own. */
  ghost predicate GuardsAgree(l: Ledger)
  {
    && l.target.Keys == l.count.Keys
    && (forall c :: c in l.target && l.target[c] != null ==> l.target[c] in l.guard && l.guard[l.target[c]] == c)
    && (forall o :: o in l.guard ==> l.guard[o] in l.target && l.target[l.guard[o]] == o)
  }

  /** Something is deleted if and only if its count is zero. */
  ghost predicate FreedExactly(l: Ledger)
  {
    && l.freed <= l.guard.Keys
    && (forall o :: o in l.guard ==> l.guard[o] in l.count && (o in l.freed <==> l.count[l.guard[o]] == 0))
    && l.freedCounts <= l.count.Keys
    && (forall c :: c in l.count ==> (c in l.freedCounts <==> l.count[c] == 0))
  }

  ghost predicate Sound(l: Ledger)
  {
    CountsAgree(l) && GuardsAgree(l) && FreedExactly(l)
  }

  ghost predicate Live(l: Ledger, p: SmartPtr)
  {
    p in l.shares && l.shares[p] in l.count && l.shares[p] in l.target
  }

  /** What the last owner deletes when it leaves. */
  ghost function Doomed(last: bool, o: Object?): set<Object>
  {
    if last && o != null then {o} else {}
  }

  ghost function DoomedCount(last: bool, c: KRefCount?): set<KRefCount>
  {
    if last && c != null then {c} else {}
  }

  /** p gives up its share. */
  ghost function Left(l: Ledger, p: SmartPtr): Ledger
    requires Live(l, p)
  {
    var c := l.shares[p];
    var last := l.count[c] == 1;
    l.(shares := l.shares - {p}, count := l.count[c := l.count[c] - 1],
       freed := l.freed + Doomed(last, l.target[c]), freedCounts := l.freedCounts + DoomedCount(last, c))
  }

  /** p joins the share of q. */
  ghost function Joined(l: Ledger, p: SmartPtr, q: SmartPtr): Ledger
    requires Live(l, q)
  {
    var c := l.shares[q];
    l.(shares := l.shares[p := c], count := l.count[c := l.count[c] + 1])
  }

  /** p takes the raw pointer o with the fresh count c. */
  ghost function Attached(l: Ledger, p: SmartPtr, c: KRefCount, o: Object?): Ledger
  {
    l.(shares := l.shares[p := c], count := l.count[c := 1], target := l.target[c := o],
       guard := if o == null then l.guard else l.guard[o := c])
  }

  lemma SoleHolder(s: set<SmartPtr>, p: SmartPtr)
    requires p in s
    ensures |s| >= 1 && (|s| == 1 <==> s == {p})
  {
    if |s| == 1 {
      assert |s - {p}| == 0;
    }
  }

  /** What a leaving SmartPtr deletes was alive, and only it held it. */
  lemma LeaveIsSound(l: Ledger, p: SmartPtr)
    requires Sound(l) && p in l.shares
    ensures Live(l, p) && Sound(Left(l, p))
    ensures 1 <= l.count[l.shares[p]] <= MAX_OWNERS
    ensures l.count[l.shares[p]] == 1 <==> Holders(l, l.shares[p]) == {p}
    ensures var c, last := l.shares[p], l.count[l.shares[p]] == 1;
            Doomed(last, l.target[c]) !! l.freed && DoomedCount(last, c) !! l.freedCounts
  {
    SoleHolder(Holders(l, l.shares[p]), p);
    LeaveCounts(l, p);
    LeaveFrees(l, p);
  }

  lemma LeaveFrees(l: Ledger, p: SmartPtr)
    requires GuardsAgree(l) && FreedExactly(l) && Live(l, p) && l.count[l.shares[p]] >= 1
    ensures GuardsAgree(Left(l, p)) && FreedExactly(Left(l, p))
  {
  }

  lemma LeaveCounts(l: Ledger, p: SmartPtr)
    requires CountsAgree(l) && Live(l, p)
    ensures CountsAgree(Left(l, p))
  {
    var l' := Left(l, p);
    forall d | d in l.count
      ensures l'.count[d] == |Holders(l', d)|
    {
      assert Holders(l', d) == Holders(l, d) - {p};
      assert p in Holders(l, d) <==> d == l.shares[p];
    }
  }

  lemma JoinIsSound(l: Ledger, p: SmartPtr, q: SmartPtr)
    requires Sound(l) && p !in l.shares && q in l.shares && l.count[l.shares[q]] < MAX_OWNERS
    ensures Live(l, q) && l.count[l.shares[q]] >= 0 && Sound(Joined(l, p, q))
  {
    SoleHolder(Holders(l, l.shares[q]), q);
    JoinCounts(l, p, q);
    JoinFrees(l, p, q);
  }

  lemma JoinCounts(l: Ledger, p: SmartPtr, q: SmartPtr)
    requires CountsAgree(l) && p !in l.shares && Live(l, q) && l.count[l.shares[q]] < MAX_OWNERS
    ensures CountsAgree(Joined(l, p, q))
  {
    var l' := Joined(l, p, q);
    forall d | d in l.count
      ensures l'.count[d] == |Holders(l', d)|
    {
      assert Holders(l', d) == Holders(l, d) + if l.shares[q] == d then {p} else {};
    }
  }

  lemma JoinFrees(l: Ledger, p: SmartPtr, q: SmartPtr)
    requires GuardsAgree(l) && FreedExactly(l) && Live(l, q) && l.count[l.shares[q]] >= 1
    ensures GuardsAgree(Joined(l, p, q)) && FreedExactly(Joined(l, p, q))
  {
  }

  lemma AttachIsSound(l: Ledger, p: SmartPtr, c: KRefCount, o: Object?)
    requires Sound(l) && p !in l.shares && c !in l.count && (o != null ==> o !in l.guard)
    ensures Sound(Attached(l, p, c, o))
  {
    AttachCounts(l, p, c, o);
    AttachFrees(l, p, c, o);
  }

  lemma AttachCounts(l: Ledger, p: SmartPtr, c: KRefCount, o: Object?)
    requires CountsAgree(l) && p !in l.shares && c !in l.count
    ensures CountsAgree(Attached(l, p, c, o))
  {
    var l' := Attached(l, p, c, o);
    forall d | d in l'.count
      ensures l'.count[d] == |Holders(l', d)|
    {
      assert Holders(l', d) == if d == c then {p} else Holders(l, d);
    }
  }

  lemma AttachFrees(l: Ledger, p: SmartPtr, c: KRefCount, o: Object?)
    requires GuardsAgree(l) && FreedExactly(l) && c !in l.count && (o != null ==> o !in l.guard)
    ensures GuardsAgree(Attached(l, p, c, o)) && FreedExactly(Attached(l, p, c, o))
  {
  }

  // ---------- The classes ----------

  /** The ledger describes the fields of the live SmartPtrs and of the counts. */
  ghost predicate Describes(l: Ledger)
    reads l.shares.Keys, l.count.Keys
  {
    && (forall p :: p in l.shares ==>
          l.shares[p] in l.target && p.reference == l.shares[p] && p.data == l.target[l.shares[p]])
    && (forall c :: c in l.count ==> c.count == l.count[c])
  }

  class Heap {
    ghost var ledger: Ledger
    ghost var live: set<SmartPtr>   // constructed and not destroyed
    ghost var handed: set<Object>   // all objects ever handed over to a SmartPtr

    ghost predicate Valid()
      reads this, ledger.shares.Keys, ledger.count.Keys
    {
      Sound(ledger) && Describes(ledger) && Lists(ledger)
    }

    ghost predicate Lists(l: Ledger)
      reads this`live, this`handed
    {
      live == l.shares.Keys && handed == l.guard.Keys
    }

    constructor ()
      ensures Valid() && live == {} && handed == {} && ledger.freed == {}
    {
      ledger := Ledger(map[], map[], map[], map[], {}, {});
      live, handed := {}, {};
    }
  }

  /** The objects that a raw pointer hands over. */
  ghost function AsSet(o: Object?): set<Object>
  {
    if o == null then {} else {o}
  }

  lemma LiveAgain(live: set<SmartPtr>, p: SmartPtr)
    requires p in live
    ensures live - {p} + {p} == live
  {
  }

  lemma RejoinIsSound(l: Ledger, p: SmartPtr, q: SmartPtr)
    requires Sound(l) && p in l.shares && q in l.shares && p != q
    requires l.shares[p] == l.shares[q] || l.count[l.shares[q]] < MAX_OWNERS
    ensures Live(l, p) && Sound(Left(l, p)) && Live(Left(l, p), q)
    ensures 0 <= Left(l, p).count[Left(l, p).shares[q]] < MAX_OWNERS && Sound(Joined(Left(l, p), p, q))
  {
    LeaveIsSound(l, p);
    JoinIsSound(Left(l, p), p, q);
  }

  lemma AttachedKeys(l: Ledger, p: SmartPtr, c: KRefCount, o: Object?)
    ensures Attached(l, p, c, o).shares.Keys == l.shares.Keys + {p}
    ensures Attached(l, p, c, o).guard.Keys == l.guard.Keys + AsSet(o)
  {
  }

  lemma JoinedKeys(l: Ledger, p: SmartPtr, q: SmartPtr)
    requires Live(l, q)
    ensures Joined(l, p, q).shares.Keys == l.shares.Keys + {p} && Joined(l, p, q).guard.Keys == l.guard.Keys
  {
  }

  lemma LeftKeys(l: Ledger, p: SmartPtr)
    requires Live(l, p)
    ensures Left(l, p).shares.Keys == l.shares.Keys - {p} && Left(l, p).guard.Keys == l.guard.Keys
  {
  }

  class SmartPtr {
    var reference: KRefCount?
    var data: Object?

    /** The block that the destructor, the assignments and Attach begin with; it reports what it
        deletes. What has been deleted before must not be deleted again. */
    method Release(ghost gone: set<Object>, ghost goneCounts: set<KRefCount>)
        returns (ghost deleted: set<Object>, ghost deletedCounts: set<KRefCount>)
      requires reference != null ==> 1 <= reference.count <= MAX_OWNERS
      requires reference != null && reference.count == 1 ==> data !in gone && reference !in goneCounts
      modifies this, reference
      ensures deleted !! gone && deletedCounts !! goneCounts
      ensures old(reference) != null ==> old(reference).count == old(reference.count) - 1
      ensures var last := old(reference) != null && old(reference.count) == 1;
              deleted == Doomed(last, old(data)) && deletedCounts == DoomedCount(last, old(reference))
    {
      deleted, deletedCounts := {}, {};
      if reference != null {
        var r := reference.Release();
        if r == 0 {
          if data != null {
            deleted := {data};
            data := null;
          }
          deletedCounts := {reference};
          reference := null;
        }
      }
    }

    /** p gives up its share. What it deletes has not been deleted before. */
    method Leave(heap: Heap)
      requires heap.Valid() && this in heap.ledger.shares
      modifies this, reference, heap
      ensures heap.Valid() && heap.live == old(heap.live) - {this} && heap.handed == old(heap.handed)
      ensures old(Live(heap.ledger, this)) && heap.ledger == old(Left(heap.ledger, this))
    {
      LeaveIsSound(heap.ledger, this);
      Drop(heap);
    }

    /** The deletions of the block enter the ledger. */
    method Drop(heap: Heap)
      requires Describes(heap.ledger) && heap.Lists(heap.ledger) && Live(heap.ledger, this)
      requires var l := heap.ledger;
               var c := l.shares[this];
               var last := l.count[c] == 1;
               && 1 <= l.count[c] <= MAX_OWNERS
               && Doomed(last, l.target[c]) !! l.freed && DoomedCount(last, c) !! l.freedCounts
      modifies this, reference, heap
      ensures Describes(heap.ledger) && heap.Lists(heap.ledger) && heap.ledger == old(Left(heap.ledger, this))
      ensures heap.live == old(heap.live) - {this} && heap.handed == old(heap.handed)
    {
      ghost var before := heap.ledger;
      LeftKeys(before, this);
      heap.ledger := Left(before, this);
      heap.live := heap.live - {this};
      ghost var deleted, deletedCounts := Release(before.freed, before.freedCounts);
      assert heap.ledger.freed == before.freed + deleted;
      assert heap.ledger.freedCounts == before.freedCounts + deletedCounts;
    }

    /** A fresh count with the value 1 for the raw pointer pValue. */
    method Take(pValue: Object?, heap: Heap)
      requires heap.Valid() && this !in heap.ledger.shares
      requires pValue != null ==> pValue !in heap.handed
      modifies this, heap
      ensures heap.Valid() && fresh(reference) && data == pValue
      ensures heap.live == old(heap.live) + {this} && heap.handed == old(heap.handed) + AsSet(pValue)
      ensures heap.ledger == Attached(old(heap.ledger), this, reference, pValue)
    {
      var c := new KRefCount();
      var _ := c.AddRef();
      assert c !in heap.ledger.count;
      AttachIsSound(heap.ledger, this, c, pValue);
      Bind(pValue, c, heap);
    }

    method Bind(pValue: Object?, c: KRefCount, heap: Heap)
      requires Describes(heap.ledger) && heap.Lists(heap.ledger) && this !in heap.ledger.shares
      requires c !in heap.ledger.count && c.count == 1
      requires forall p :: p in heap.ledger.shares ==> heap.ledger.shares[p] in heap.ledger.count
      modifies this, heap
      ensures Describes(heap.ledger) && heap.Lists(heap.ledger) && reference == c && data == pValue
      ensures heap.live == old(heap.live) + {this} && heap.handed == old(heap.handed) + AsSet(pValue)
      ensures heap.ledger == Attached(old(heap.ledger), this, c, pValue)
    {
      AttachedKeys(heap.ledger, this, c, pValue);
      Store(pValue, c, heap);
      heap.live, heap.handed := heap.live + {this}, heap.handed + AsSet(pValue);
    }

    method Store(pValue: Object?, c: KRefCount, heap: Heap)
      requires Describes(heap.ledger) && this !in heap.ledger.shares && c !in heap.ledger.count && c.count == 1
      requires forall p :: p in heap.ledger.shares ==> heap.ledger.shares[p] in heap.ledger.count
      modifies this, heap`ledger
      ensures Describes(heap.ledger) && reference == c && data == pValue
      ensures heap.ledger == Attached(old(heap.ledger), this, c, pValue)
    {
      data := pValue;
      reference := c;
      heap.ledger := Attached(heap.ledger, this, c, pValue);
    }

    constructor (heap: Heap)
      requires heap.Valid()
      modifies heap
      ensures heap.Valid() && fresh(reference) && data == null
      ensures heap.live == old(heap.live) + {this} && heap.handed == old(heap.handed)
      ensures heap.ledger == Attached(old(heap.ledger), this, reference, null)
    {
      reference, data := null, null;
      new;
      Take(null, heap);
    }

    /** The raw pointer must not belong to a SmartPtr already. */
    constructor FromRaw(pValue: Object?, heap: Heap)
      requires heap.Valid()
      requires pValue != null ==> pValue !in heap.handed
      modifies heap
      ensures heap.Valid() && fresh(reference) && data == pValue
      ensures heap.live == old(heap.live) + {this}
      ensures heap.handed == old(heap.handed) + if pValue == null then {} else {pValue}
      ensures heap.ledger == Attached(old(heap.ledger), this, reference, pValue)
    {
      reference, data := null, null;
      new;
      Take(pValue, heap);
    }

    constructor Copy(sp: SmartPtr, heap: Heap)
      requires heap.Valid() && sp in heap.ledger.shares
      requires heap.ledger.count[heap.ledger.shares[sp]] < MAX_OWNERS
      modifies heap, sp.reference
      ensures heap.Valid() && data == sp.data && reference == sp.reference
      ensures heap.live == old(heap.live) + {this} && heap.handed == old(heap.handed)
      ensures old(Live(heap.ledger, sp)) && heap.ledger == Joined(old(heap.ledger), this, sp)
    {
      reference, data := null, null;
      new;
      JoinIsSound(heap.ledger, this, sp);
      Join(sp, heap);
    }

    /** The last step of copying and assigning: one more owner of the share of sp. */
    method Join(sp: SmartPtr, heap: Heap)
      requires Describes(heap.ledger) && heap.Lists(heap.ledger) && this !in heap.ledger.shares
      requires Live(heap.ledger, sp) && 0 <= heap.ledger.count[heap.ledger.shares[sp]] < MAX_OWNERS
      modifies this, sp.reference, heap
      ensures Describes(heap.ledger) && heap.Lists(heap.ledger) && data == sp.data && reference == sp.reference
      ensures heap.live == old(heap.live) + {this} && heap.handed == old(heap.handed)
      ensures heap.ledger == Joined(old(heap.ledger), this, sp)
    {
      JoinedKeys(heap.ledger, this, sp);
      Link(sp, heap);
      heap.live := heap.live + {this};
    }

    method Link(sp: SmartPtr, heap: Heap)
      requires Describes(heap.ledger) && this !in heap.ledger.shares
      requires Live(heap.ledger, sp) && 0 <= heap.ledger.count[heap.ledger.shares[sp]] < MAX_OWNERS
      modifies this, sp.reference, heap`ledger
      ensures Describes(heap.ledger) && data == sp.data && reference == sp.reference
      ensures heap.ledger == Joined(old(heap.ledger), this, sp)
    {
      data := sp.data;
      reference := sp.reference;
      heap.ledger := Joined(heap.ledger, this, sp);
      var _ := reference.AddRef();
    }

    /** ~SmartPtr */
    method Destroy(heap: Heap)
      requires heap.Valid() && this in heap.ledger.shares
      modifies this, reference, heap
      ensures heap.Valid() && heap.live == old(heap.live) - {this} && heap.handed == old(heap.handed)
      ensures old(Live(heap.ledger, this)) && heap.ledger == old(Left(heap.ledger, this))
    {
      Leave(heap);
    }

    /** operator=(const SmartPtr&): nothing happens when a pointer is assigned to itself. */
    method Assign(sp: SmartPtr, heap: Heap)
      requires heap.Valid() && this in heap.ledger.shares && sp in heap.ledger.shares
      requires heap.ledger.shares[this] == heap.ledger.shares[sp] ||
               heap.ledger.count[heap.ledger.shares[sp]] < MAX_OWNERS
      modifies this, reference, sp.reference, heap
      ensures heap.Valid() && data == old(sp.data) && reference == old(sp.reference)
      ensures heap.live == old(heap.live) && heap.handed == old(heap.handed)
      ensures old(Live(heap.ledger, this)) && old(Live(heap.ledger, sp))
      ensures heap.ledger == if this == sp then old(heap.ledger) else Joined(Left(old(heap.ledger), this), this, sp)
    {
      LiveAgain(heap.live, this);
      LeaveIsSound(heap.ledger, this);
      LeaveIsSound(heap.ledger, sp);
      if this != sp {
        Rejoin(sp, heap);
      }
    }

    /** The branch of the assignment for another pointer. */
    method Rejoin(sp: SmartPtr, heap: Heap)
      requires heap.Valid() && this in heap.ledger.shares && sp in heap.ledger.shares && this != sp
      requires heap.ledger.shares[this] == heap.ledger.shares[sp] ||
               heap.ledger.count[heap.ledger.shares[sp]] < MAX_OWNERS
      requires Live(heap.ledger, this)
      modifies this, reference, sp.reference, heap
      ensures heap.Valid() && data == old(sp.data) && reference == old(sp.reference)
      ensures heap.live == old(heap.live) - {this} + {this} && heap.handed == old(heap.handed)
      ensures Live(Left(old(heap.ledger), this), sp)
      ensures heap.ledger == Joined(Left(old(heap.ledger), this), this, sp)
    {
      RejoinIsSound(heap.ledger, this, sp);
      Leave(heap);
      Join(sp, heap);
    }

    /** The body of the assignment of a raw pointer and of Attach. */
    method Retake(pValue: Object?, heap: Heap)
      requires heap.Valid() && this in heap.ledger.shares && Live(heap.ledger, this)
      requires pValue != null ==> pValue !in heap.handed
      modifies this, reference, heap
      ensures heap.Valid() && fresh(reference) && data == pValue && heap.live == old(heap.live) - {this} + {this}
      ensures heap.handed == old(heap.handed) + AsSet(pValue)
      ensures heap.ledger == Attached(Left(old(heap.ledger), this), this, reference, pValue)
    {
      Leave(heap);
      Take(pValue, heap);
    }

    /** operator=(T*) */
    method AssignRaw(pValue: Object?, heap: Heap)
      requires heap.Valid() && this in heap.ledger.shares
      requires pValue != null ==> pValue !in heap.handed
      modifies this, reference, heap
      ensures heap.Valid() && fresh(reference) && data == pValue && heap.live == old(heap.live)
      ensures heap.handed == old(heap.handed) + if pValue == null then {} else {pValue}
      ensures old(Live(heap.ledger, this))
      ensures heap.ledger == Attached(Left(old(heap.ledger), this), this, reference, pValue)
    {
      LiveAgain(heap.live, this);
      LeaveIsSound(heap.ledger, this);
      Retake(pValue, heap);
    }

    method Attach(pObject: Object?, heap: Heap)
      requires heap.Valid() && this in heap.ledger.shares
      requires pObject != null ==> pObject !in heap.handed
      modifies this, reference, heap
      ensures heap.Valid() && fresh(reference) && data == pObject && heap.live == old(heap.live)
      ensures heap.handed == old(heap.handed) + if pObject == null then {} else {pObject}
      ensures old(Live(heap.ledger, this))
      ensures heap.ledger == Attached(Left(old(heap.ledger), this), this, reference, pObject)
    {
      LiveAgain(heap.live, this);
      LeaveIsSound(heap.ledger, this);
      Retake(pObject, heap);
    }

    method Get(heap: Heap) returns (ptr: Object?)
      requires heap.Valid() && this in heap.ledger.shares
      ensures ptr == data
      ensures ptr != null ==> ptr !in heap.ledger.freed
    {
      LeaveIsSound(heap.ledger, this);
      ptr := data;
    }
  }

  // ---------- What the ledger promises ----------

  /** The count of a live SmartPtr is the number of live SmartPtrs that use it. */
  lemma CountIsOwners(heap: Heap, p: SmartPtr)
    requires heap.Valid() && p in heap.live
    ensures p.reference != null && p.reference.count == |set q | q in heap.live && q.reference == p.reference|
  {
    var l := heap.ledger;
    assert Holders(l, l.shares[p]) == set q | q in heap.live && q.reference == p.reference;
  }

  /** An object that was handed over is deleted if and only if no live SmartPtr points to it. */
  lemma DeletedMeansUnowned(heap: Heap, o: Object)
    requires heap.Valid() && o in heap.handed
    ensures o in heap.ledger.freed <==> forall p :: p in heap.live ==> p.data != o
  {
    var l := heap.ledger;
    var c := l.guard[o];
    if o in l.freed {
      forall p | p in heap.live
        ensures p.data != o
      {
        assert l.shares[p] == c ==> p in Holders(l, c);
      }
    } else {
      assert Holders(l, c) != {};
      var p :| p in Holders(l, c);
      assert p.data == o;
    }
  }

  /** When no SmartPtr is left, every object ever handed over and every count has been deleted. */
  lemma NothingRemains(heap: Heap)
    requires heap.Valid() && heap.live == {}
    ensures heap.ledger.freed == heap.handed && heap.ledger.freedCounts == heap.ledger.count.Keys
  {
    assert forall c :: c in heap.ledger.count ==> Holders(heap.ledger, c) == {};
  }
}
