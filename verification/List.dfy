/** The intrusive circular list: elements come from a pool inside the list
    first and from malloc after that. */
module LinkedList {

  const LIST_PREALLOC_SIZE := 64

  datatype Status = UNUSED | USED | MALLOC

  class Element {
    var status: Status
    var prev: Element?
    var next: Element?
    /** A pointer; zero is NULL. */
    var data: nat
    /** Its place in the pool, if it belongs there. */
    ghost const slot: nat

    constructor (status: Status, ghost slot: nat)
      ensures this.status == status && prev == null && next == null && data == 0 && this.slot == slot
    {
      this.status, prev, next, data, this.slot := status, null, null, 0, slot;
    }
  }

  class List {
    const pool: seq<Element>
    var count: int
    var total: int
    /** The head and the linked elements in order; empty before the first append. */
    ghost var ring: seq<Element>
    /** The slots of the pool that are in use. */
    ghost var used: set<nat>

    ghost predicate Pooled()
    {
      && |pool| == LIST_PREALLOC_SIZE
      && (forall i {:trigger pool[i]} :: 0 <= i < |pool| ==> pool[i].slot == i)
    }

    /** The ring is a cycle of different elements, the head first. */
    ghost predicate Linked()
      reads this`ring, ring`next, ring`prev
    {
      && Distinct(ring)
      && Chained(ring)
    }

    /** Slots are marked by their use, and the slots in use are counted. */
    ghost predicate Marked()
      reads this`count, this`used, pool`status
    {
      && count == |used| && (forall i :: i in used ==> i < |pool|)
      && (forall i {:trigger pool[i]} :: 0 <= i < |pool| ==> pool[i].status == if i in used then USED else UNUSED)
    }

    /** The slots in use are those of the ring; everything else in the ring
        comes from malloc. */
    ghost predicate Owned()
      reads this`ring, this`used, ring`status
    {
      Accounted(ring, used, null)
    }

    /** One element, if any, has its slot without being among q. */
    ghost predicate Accounted(q: seq<Element>, slots: set<nat>, apart: Element?)
      reads q`status
    {
      && (forall k {:trigger q[k]} :: 0 <= k < |q| ==> InOrder(q[k], slots))
      && (forall i :: i in slots ==> i < |pool| && (pool[i] in q || pool[i] == apart))
    }

    ghost predicate InOrder(e: Element, slots: set<nat>)
      reads e`status
    {
      if e.status == USED then InSlot(e, slots) else e.status == MALLOC
    }

    ghost predicate InSlot(e: Element, slots: set<nat>) {
      e.slot in slots && e.slot < |pool| && pool[e.slot] == e
    }

    lemma MoreSlots(q: seq<Element>, slots: set<nat>, i: nat)
      requires Accounted(q, slots, null) && i < |pool|
      ensures Accounted(q, slots + {i}, pool[i])
    {
    }

    lemma Malloced(q: seq<Element>, slots: set<nat>, e: Element)
      requires Accounted(q, slots, null)
      ensures Accounted(q, slots, e)
    {
    }

    lemma Joined(q: seq<Element>, slots: set<nat>, e: Element)
      requires Accounted(q, slots, e) && InOrder(e, slots)
      ensures Accounted(q + [e], slots, null)
    {
      assert (q + [e])[|q|] == e;
    }

    lemma Parted(q: seq<Element>, k: nat, slots: set<nat>, e: Element)
      requires Accounted(q, slots, null) && k < |q| && q[k] == e
      ensures Accounted(Drop(q, k), slots, e) && InOrder(e, slots)
    {
      forall i | i in slots
        ensures i < |pool| && (pool[i] in Drop(q, k) || pool[i] == q[k])
      {
        var j :| 0 <= j < |q| && q[j] == pool[i];
        assert j != k ==> Drop(q, k)[if j < k then j else j - 1] == q[j];
      }
    }

    lemma Released(q: seq<Element>, slots: set<nat>, e: Element)
      requires Pooled() && Accounted(q, slots, e) && e !in q
      ensures Accounted(q, if InSlot(e, slots) then slots - {e.slot} else slots, null)
    {
    }

    ghost predicate Valid()
      reads this, ring, pool
    {
      && Pooled() && Linked() && Marked() && Owned()
      && (if ring == [] then pool[0].next == null && total == 0 else ring[0] == pool[0] && total == |ring| - 1)
    }

    ghost function Contents(): seq<nat>
      reads this`ring, ring`data
    {
      DataOf(ring)
    }

    ghost predicate Initialised()
      reads this
    {
      ring != []
    }

    /** What the counters mean: the pool's one is the number of slots that hold
        the head or a linked element, exactly these are marked as used, and the
        other one is the length. */
    lemma CountersMean()
      requires Valid()
      ensures count == |set i | 0 <= i < |pool| && pool[i] in ring|
      ensures forall i :: 0 <= i < |pool| ==> (pool[i].status == USED <==> pool[i] in ring)
      ensures total == |Contents()|
    {
      forall i | 0 <= i < |pool| && pool[i] in ring
        ensures i in used
      {
        var k :| 0 <= k < |ring| && ring[k] == pool[i];
      }
      assert used == set i | 0 <= i < |pool| && pool[i] in ring;
    }

    /** A list in zeroed memory. */
    constructor ()
      ensures Valid() && !Initialised() && fresh(pool)
    {
      var slots: seq<Element> := [];
      while |slots| < LIST_PREALLOC_SIZE
        invariant |slots| <= LIST_PREALLOC_SIZE
        invariant fresh(slots)
        invariant forall i :: 0 <= i < |slots| ==>
          slots[i].status == UNUSED && slots[i].next == null && slots[i].slot == i
      {
        var e := new Element(UNUSED, |slots|);
        slots := slots + [e];
      }
      pool, count, total, ring, used := slots, 0, 0, [], {};
    }

    /** PRE_ALLOC: never an element of the ring. */
    method Allocate() returns (e: Element)
      requires Valid() && Initialised()
      modifies this`count, this`used, pool`status
      ensures e !in ring && Marked()
      ensures if old(count) < LIST_PREALLOC_SIZE
              then e in pool && e.slot !in old(used) && e.slot < |pool| && pool[e.slot] == e
                   && used == old(used) + {e.slot} && e.status == USED
              else fresh(e) && e.status == MALLOC && used == old(used)
      ensures Accounted(ring, used, e) && InOrder(e, used)
    {
      hide Linked, Marked, Accounted;
      if count >= LIST_PREALLOC_SIZE {
        e := new Element(MALLOC, 0);
        Malloced(ring, used, e);
      } else {
        var i := FreeSlot();
        e := pool[i];
        SlotOutside(i);
        MoreSlots(ring, used, i);
        Claim(e);
      }
    }

    method FreeSlot() returns (i: nat)
      requires Pooled() && Marked() && count < LIST_PREALLOC_SIZE
      ensures i < |pool| && i !in used
    {
      SomeUnused(used, LIST_PREALLOC_SIZE);
      i := 0;
      while i < LIST_PREALLOC_SIZE && pool[i].status != UNUSED
        invariant 0 <= i <= LIST_PREALLOC_SIZE
        invariant forall k :: 0 <= k < i ==> k in used
      {
        i := i + 1;
      }
    }

    method Claim(e: Element)
      requires Pooled() && Marked() && e.slot < |pool| && pool[e.slot] == e && e.slot !in used
      modifies this`count, this`used, e`status
      ensures Marked() && e.status == USED && used == old(used) + {e.slot}
    {
      count := count + 1;
      e.status := USED;
      used := used + {e.slot};
    }

    lemma SlotOutside(i: nat)
      requires Marked() && Owned() && i < |pool| && i !in used
      ensures pool[i] !in ring
    {
    }

    /** The list is set up by its first element. */
    method Initialise()
      requires Valid() && !Initialised()
      modifies this, pool
      ensures Valid() && Initialised() && ring == [pool[0]] && Contents() == []
    {
      var i := 0;
      while i < |pool|
        invariant 0 <= i <= |pool|
        invariant forall k :: 0 <= k < |pool| ==> pool[k].status == UNUSED
      {
        pool[i].status, pool[i].prev, pool[i].next, pool[i].data := UNUSED, null, null, 0;
        i := i + 1;
      }
      count, total := 0, 0;
      var head := pool[0];
      head.status := USED;
      count := count + 1;
      used := {0};
      head.next := head;
      head.prev := head;
      ring := [head];
    }

    /** list_append: the element that is linked was not linked before. */
    method Append(x: nat)
      requires Valid()
      modifies this, pool, ring
      ensures Valid() && Initialised()
      ensures Contents() == old(Contents()) + [x]
      ensures ring == (if old(ring) == [] then [pool[0]] else old(ring)) + [ring[|ring| - 1]]
      ensures ring[|ring| - 1] !in old(ring) && (fresh(ring[|ring| - 1]) || ring[|ring| - 1] in pool)
    {
      var head := pool[0];
      assert ring != [] ==> head.next == ring[if |ring| > 1 then 1 else 0];
      if head.next == null {
        Initialise();
      }
      Add(x);
    }

    method Add(x: nat)
      requires Valid() && Initialised()
      modifies this, pool, ring
      ensures Valid() && |ring| == |old(ring)| + 1
      ensures Contents() == old(Contents()) + [x]
      ensures ring == old(ring) + [ring[|ring| - 1]]
      ensures ring[|ring| - 1] !in old(ring) && (fresh(ring[|ring| - 1]) || ring[|ring| - 1] in pool)
    {
      hide Linked, Accounted, InOrder, DataOf, Marked;
      var box := Allocate();
      ghost var was := ring;
      Link(box, x);
      Joined(was, used, box);
    }

    /** A new element goes before the head. */
    method Link(box: Element, x: nat)
      requires Pooled() && Linked() && Initialised() && ring[0] == pool[0] && box !in ring
      modifies this`ring, this`total, ring`next, ring`prev, box`next, box`prev, box`data
      ensures Linked() && ring == old(ring) + [box] && total == old(total) + 1
      ensures Contents() == old(Contents()) + [x]
    {
      hide Linked;
      ghost var was, s := ring, Contents();
      DataItems(ring);
      assert forall i :: 0 <= i < |s| ==> s[i] == ring[i + 1].data;
      hide DataOf;
      box.data := x;
      Attach(box);
      assert (was + [box])[..|was|] == was;
      DataFrom(was, s);
    }

    method Attach(box: Element)
      requires Pooled() && Linked() && Initialised() && ring[0] == pool[0] && box !in ring
      modifies this`ring, this`total, ring`next, ring`prev, box`next, box`prev
      ensures Linked() && ring == old(ring) + [box] && total == old(total) + 1
    {
      hide Distinct;
      DistinctAt(ring, 0);
      DistinctAt(ring, |ring| - 1);
      DistinctSnoc(ring, box);
      var head := pool[0];
      box.next := head;
      box.prev := head.prev;
      head.prev.next := box;
      head.prev := box;
      total := total + 1;
      LinkedSnoc(ring, box);
      ring := ring + [box];
    }

    /** LIST_REMOVE_CURRENT_EL_IN_FOREACH, and the middle of list_remove: box
        leaves the ring and its slot is free again. */
    method Unlink(box: Element, ghost k: nat)
      requires Valid() && 0 < k < |ring| && ring[k] == box
      modifies this, ring`next, ring`prev, box`status
      ensures Valid() && ring == Drop(old(ring), k)
      ensures box.status == UNUSED && box !in ring
      ensures Contents() == Drop(old(Contents()), k - 1)
    {
      hide Linked, Marked, Accounted, Drop, DataOf;
      ghost var q, slots := Drop(ring, k), used;
      DropAt(ring, k, 0);
      Parted(ring, k, slots, box);
      OnlyUsedInSlot(box, used);
      assert Accounted(q, slots, box);
      Bypass(box, k);
      assert q == ring;
      Free(box);
      Released(q, slots, box);
    }

    /** LIST_FOREACH with any body that may remove the current element: `drop`
        says of every visit whether it does.  Every element is seen once, in
        order, and the rest of the list is what was kept.  A list that was
        never set up is fatal. */
    method Foreach(drop: seq<bool>) returns (ok: bool, seen: seq<nat>)
      requires Valid()
      modifies this, ring`next, ring`prev, ring`status
      ensures ok == Initialised() == old(Initialised())
      ensures Valid() && seen == old(Contents())
      ensures Contents() == Kept(old(Contents()), drop) && Within(ring, old(ring))
    {
      hide Linked, Marked, Owned, DataOf;
      WithinItself(ring);
      ok := IsSetUp();
      seen := [];
      if ok {
        var box := First();
        hide *;
        seen := Walk(box, drop, ring, Contents());
      }
    }

    /** LIST_FOREACH_CLEAR: only the head is left, and all other slots are free. */
    method Clear() returns (ok: bool, seen: seq<nat>)
      requires Valid()
      modifies this, ring`next, ring`prev, ring`status
      ensures ok == Initialised() == old(Initialised())
      ensures Valid() && seen == old(Contents()) && Contents() == []
      ensures ok ==> ring == [pool[0]] && count == 1 && total == 0 && used == {0}
    {
      hide *;
      var drop := seq(if total > 0 then total else 0, _ => true);
      ClearDrops(drop);
      ok, seen := Foreach(drop);
      if ok {
        OnlyHead();
      }
    }

    lemma ClearDrops(drop: seq<bool>)
      requires Valid() && |drop| == (if total > 0 then total else 0) && forall k :: 0 <= k < |drop| ==> drop[k]
      ensures Kept(Contents(), drop) == []
    {
      KeptNothing(Contents(), drop);
    }

    lemma OnlyHead()
      requires Valid() && Initialised() && Contents() == []
      ensures ring == [pool[0]] && count == 1 && total == 0 && used == {0}
    {
      ContentsLength();
      assert ring == [ring[0]];
      assert ring[0].status == USED;
      forall i | i in used
        ensures i == 0
      {
        assert pool[i] == pool[0];
      }
      assert used == {0};
    }

    /** The loop, from its first element on. */
    method Walk(first: Element, drop: seq<bool>, ghost was: seq<Element>, ghost s: seq<nat>) returns (seen: seq<nat>)
      requires Valid() && ring != [] && pool != [] && Within(ring, was) && Contents() == s
      requires if first == pool[0] then |ring| == 1 else |ring| > 1 && first == ring[1]
      modifies this, was`next, was`prev, was`status
      ensures Valid() && ring != [] && seen == s && Contents() == Kept(s, drop) && Within(ring, was)
    {
      hide *;
      var head := pool[0];
      var box := first;
      ghost var k := 1;
      seen := [];
      FilterStart(s, drop);
      while box != head
        invariant Valid() && ring != [] && Within(ring, was)
        invariant if box == head then k == |ring| else 0 < k < |ring| && box == ring[k]
        invariant Filtering(Contents(), seen, s, drop, k)
        decreases |ring| - k
      {
        ghost var before := seen;
        var remove := |seen| < |drop| && drop[|seen|];
        VisitDrops(drop, |seen|);
        seen := seen + [box.data];
        box, k := Visit(box, k, was, drop, remove, before, s);
      }
      ContentsLength();
      FilterEnd(Contents(), seen, s, drop, k);
    }

    lemma ContentsLength()
      requires ring != []
      ensures |Contents()| == |ring| - 1
    {
    }

    /** The body of the loop for one element: where to go on, read before the
        element may be unlinked. */
    method Visit(box: Element, ghost k: nat, ghost was: seq<Element>,
                 ghost drop: seq<bool>, remove: bool, ghost seen: seq<nat>, ghost s: seq<nat>)
      returns (next: Element, ghost k': nat)
      requires Valid() && 0 < k < |ring| && box == ring[k] && Within(ring, was)
      requires Filtering(Contents(), seen, s, drop, k) && remove == Drops(drop, |seen|)
      modifies this, was`next, was`prev, was`status
      ensures Within(ring, was)
      ensures Valid() && ring != [] && |ring| - k' == |old(ring)| - k - 1
      ensures if next == pool[0] then k' == |ring| else 0 < k' < |ring| && next == ring[k']
      ensures Filtering(Contents(), seen + [old(box.data)], s, drop, k')
    {
      hide Linked, Marked, Owned, Pooled, DataOf, Filtering, Drop, Drops;
      next := After(box, k);
      k' := k;
      DataAt(ring, k - 1);
      FilterStep(Contents(), seen, s, drop, k);
      if remove {
        DropWithin(ring, k);
        if k + 1 < |ring| {
          DropAt(ring, k, k);
        }
        Unlink(box, k);
      } else {
        k' := k + 1;
      }
    }

    method IsSetUp() returns (ok: bool)
      requires Valid()
      ensures ok == Initialised()
    {
      ok := pool[0].next != null;
      assert ring != [] ==> pool[0].next == ring[if |ring| > 1 then 1 else 0];
    }

    method First() returns (e: Element)
      requires Valid() && Initialised()
      ensures if e == pool[0] then |ring| == 1 else |ring| > 1 && e == ring[1]
    {
      DistinctAt(ring, 0);
      assert pool[0].next == ring[if |ring| > 1 then 1 else 0];
      e := pool[0].next;
    }

    /** The element after box, or the head. */
    method After(box: Element, ghost k: nat) returns (e: Element)
      requires Valid() && 0 < k < |ring| && box == ring[k]
      ensures if e == pool[0] then k + 1 == |ring| else k + 1 < |ring| && e == ring[k + 1]
    {
      assert box.next == ring[if k + 1 < |ring| then k + 1 else 0];
      DistinctAt(ring, 0);
      e := box.next;
    }

    /** The loop of list_remove and list_contains: the first element with this
        data, if any. */
    method Find(x: nat) returns (box: Element?, ghost k: nat)
      requires Valid() && Initialised()
      ensures box == null <==> x !in Contents()
      ensures box != null ==>
        0 < k < |ring| && box == ring[k] && Contents()[k - 1] == x && Absent(Contents(), x, k - 1)
    {
      var head := pool[0];
      hide Linked, Marked, Owned, Pooled, DataOf, Absent;
      var e := First();
      k := 1;
      AbsentStart(Contents(), x);
      while e != head
        invariant if e == head then k == |ring| else 0 < k < |ring| && e == ring[k]
        invariant Absent(Contents(), x, k - 1)
        decreases |ring| - k
      {
        DataAt(ring, k - 1);
        AbsentNext(Contents(), x, k - 1);
        if e.data == x {
          return e, k;
        }
        e := After(e, k);
        k := k + 1;
      }
      AbsentNext(Contents(), x, k - 1);
      box := null;
    }

    /** list_remove: a missing item is fatal. */
    method Remove(x: nat) returns (ok: bool)
      requires Valid()
      modifies this, ring`next, ring`prev, ring`status, ring`data
      ensures ok <==> old(Initialised()) && x in old(Contents())
      ensures Valid() && Contents() == if ok then RemoveFirst(old(Contents()), x) else old(Contents())
      ensures Within(ring, old(ring)) && Initialised() == old(Initialised())
    {
      WithinItself(ring);
      hide Linked, Marked, Owned, Pooled, DataOf, RemoveFirst, Absent;
      ok := IsSetUp();
      if ok {
        var box, k := Find(x);
        ok := box != null;
        if ok {
          RemoveFirstAt(Contents(), x, k - 1);
          DropWithin(ring, k);
          UnlinkErased(box, k);
        }
      }
    }

    /** The middle of list_remove: the element forgets its data before its slot is
        free again. */
    method UnlinkErased(box: Element, ghost k: nat)
      requires Valid() && 0 < k < |ring| && ring[k] == box
      modifies this, ring`next, ring`prev, box`status, box`data
      ensures Valid() && ring == Drop(old(ring), k)
      ensures box.status == UNUSED && box.data == 0 && box !in ring
      ensures Contents() == Drop(old(Contents()), k - 1)
    {
      hide Linked, Marked, Accounted, Drop, DataOf;
      ghost var q, slots := Drop(ring, k), used;
      DropAt(ring, k, 0);
      Parted(ring, k, slots, box);
      OnlyUsedInSlot(box, used);
      assert Accounted(q, slots, box);
      Bypass(box, k);
      assert q == ring;
      box.data := 0;
      Free(box);
      Released(q, slots, box);
    }

    /** list_contains */
    method Contains(x: nat) returns (ok: bool, found: bool)
      requires Valid()
      ensures ok == Initialised() && (ok ==> found == (x in Contents()))
    {
      ok := IsSetUp();
      found := false;
      if ok {
        var box, k := Find(x);
        found := box != null;
      }
    }

    lemma OnlyUsedInSlot(e: Element, slots: set<nat>)
      requires Marked() && slots == used
      ensures InSlot(e, slots) ==> e.status == USED
    {
    }

    /** The neighbours of box are linked to each other. */
    method Bypass(box: Element, ghost k: nat)
      requires Linked() && 0 < k < |ring| && ring[k] == box
      modifies this`ring, ring`next, ring`prev
      ensures Linked() && ring == Drop(old(ring), k) && box !in ring
      ensures Contents() == Drop(old(Contents()), k - 1)
    {
      hide DataOf, Drop, Distinct;
      DataPast(ring, k);
      Neighbours(ring, k);
      DistinctAt(ring, k - 1);
      DistinctAt(ring, if k + 1 < |ring| then k + 1 else 0);
      DistinctWithout(ring, k);
      box.prev.next := box.next;
      box.next.prev := box.prev;
      ghost var was := ring;
      LinkedPast(was, k);
      ring := Drop(ring, k);
    }

    /** list_free_el with PRE_FREE: neither of its two checks can fail. */
    method Free(box: Element)
      requires Pooled() && Marked() && box.status != UNUSED
      requires box.status == USED ==> box.slot in used && box.slot < |pool| && pool[box.slot] == box
      modifies this`count, this`total, this`used, box`status
      ensures Marked() && box.status == UNUSED && total == old(total) - 1
      ensures used == if old(box.status) == USED then old(used) - {box.slot} else old(used)
    {
      match box.status {
        case USED =>
          box.status := UNUSED;
          count := count - 1;
          used := used - {box.slot};
          assert count >= 0;
        case MALLOC =>
          box.status := UNUSED;
        case UNUSED =>
          assert false;
      }
      total := total - 1;
    }
  }

  // -------------------------------------------------------------- ring lemmas

  /** s without its item k. */
  function Drop<T>(s: seq<T>, k: nat): (r: seq<T>)
    requires k < |s|
    ensures |r| == |s| - 1
  {
    s[..k] + s[k + 1..]
  }

  lemma DropAt<T>(s: seq<T>, k: nat, i: nat)
    requires k < |s| && i < |s| - 1
    ensures Drop(s, k)[i] == s[if i < k then i else i + 1]
  {
  }

  ghost predicate Distinct(ring: seq<Element>) {
    forall i, j :: 0 <= i < j < |ring| ==> ring[i] != ring[j]
  }

  lemma DistinctAt(ring: seq<Element>, k: nat)
    requires Distinct(ring) && k < |ring|
    ensures forall i {:trigger ring[i]} :: 0 <= i < |ring| && i != k ==> ring[i] != ring[k]
  {
  }

  ghost predicate Chained(ring: seq<Element>)
    reads ring`next, ring`prev
  {
    && (forall i {:trigger ring[i].next} :: 0 <= i < |ring| ==> ring[i].next == ring[if i + 1 < |ring| then i + 1 else 0])
    && (forall i {:trigger ring[i].prev} :: 0 <= i < |ring| ==> ring[i].prev == ring[if i > 0 then i - 1 else |ring| - 1])
  }

  lemma Neighbours(ring: seq<Element>, k: nat)
    requires Chained(ring) && 0 < k < |ring|
    ensures ring[k].prev == ring[k - 1] && ring[k].next == ring[if k + 1 < |ring| then k + 1 else 0]
  {
  }

  /** Links from and to a new last element make a chain with it. */
  lemma LinkedSnoc(r: seq<Element>, e: Element)
    requires r != [] && e.next == r[0] && e.prev == r[|r| - 1] && r[|r| - 1].next == e && r[0].prev == e
    requires forall i {:trigger r[i].next} :: 0 <= i < |r| - 1 ==> r[i].next == r[i + 1]
    requires forall i {:trigger r[i].prev} :: 0 < i < |r| ==> r[i].prev == r[i - 1]
    ensures Chained(r + [e])
  {
  }

  /** Links that lead past element k make a chain without it. */
  lemma LinkedPast(r: seq<Element>, k: nat)
    requires 0 < k < |r|
    requires forall i {:trigger r[i].next} :: 0 <= i < |r| && i != k ==>
      r[i].next == var j := if i == k - 1 then k + 1 else i + 1; r[if j < |r| then j else 0]
    requires forall i {:trigger r[i].prev} :: 0 <= i < |r| && i != k ==>
      r[i].prev == if i == 0 then r[if k + 1 == |r| then k - 1 else |r| - 1] else r[if i == k + 1 then k - 1 else i - 1]
    ensures Chained(Drop(r, k))
  {
    var q := Drop(r, k);
    forall i | 0 <= i < |q|
      ensures q[i].next == q[if i + 1 < |q| then i + 1 else 0]
      ensures q[i].prev == q[if i > 0 then i - 1 else |q| - 1]
    {
      assert q[i] == r[if i < k then i else i + 1];
    }
  }

  ghost predicate Within(ring: seq<Element>, was: seq<Element>) {
    forall i :: 0 <= i < |ring| ==> ring[i] in was
  }

  lemma DropWithin(ring: seq<Element>, k: nat)
    requires k < |ring|
    ensures Within(Drop(ring, k), ring)
  {
  }

  lemma WithinItself(ring: seq<Element>)
    ensures Within(ring, ring)
  {
  }

  lemma DistinctSnoc(ring: seq<Element>, e: Element)
    requires Distinct(ring) && e !in ring
    ensures Distinct(ring + [e])
  {
  }

  lemma DistinctWithout(ring: seq<Element>, k: nat)
    requires Distinct(ring) && k < |ring|
    ensures Distinct(Drop(ring, k)) && ring[k] !in Drop(ring, k)
  {
  }

  /** The data of all elements but the head. */
  ghost function DataOf(ring: seq<Element>): (s: seq<nat>)
    reads ring`data
    ensures |s| == if ring == [] then 0 else |ring| - 1
  {
    if |ring| <= 1 then [] else DataOf(ring[..|ring| - 1]) + [ring[|ring| - 1].data]
  }

  lemma {:induction false} DataAt(r: seq<Element>, i: nat)
    requires i + 1 < |r|
    ensures DataOf(r)[i] == r[i + 1].data
  {
    if i + 2 < |r| {
      DataAt(r[..|r| - 1], i);
    }
  }

  /** Two rings with the same data hold the same. */
  lemma DataFrom(r: seq<Element>, s: seq<nat>)
    requires |s| == |DataOf(r)| && forall i {:trigger s[i]} :: 0 <= i < |s| ==> s[i] == r[i + 1].data
    ensures DataOf(r) == s
  {
    forall i | 0 <= i < |s|
      ensures DataOf(r)[i] == s[i]
    {
      DataAt(r, i);
    }
  }

  lemma DataItems(r: seq<Element>)
    ensures forall i {:trigger r[i].data} :: 0 < i < |r| ==> r[i].data == DataOf(r)[i - 1]
  {
    forall i | 0 < i < |r|
      ensures r[i].data == DataOf(r)[i - 1]
    {
      DataAt(r, i - 1);
    }
  }

  lemma DataPast(r: seq<Element>, k: nat)
    requires 0 < k < |r|
    ensures DataOf(Drop(r, k)) == Drop(DataOf(r), k - 1)
  {
    hide DataOf, Drop;
    var q, s := Drop(r, k), Drop(DataOf(r), k - 1);
    forall i | 0 <= i < |s|
      ensures s[i] == q[i + 1].data
    {
      DropAt(DataOf(r), k - 1, i);
      DropAt(r, k, i + 1);
      DataAt(r, if i < k - 1 then i else i + 1);
    }
    DataFrom(q, s);
  }

  ghost predicate Absent(s: seq<nat>, x: nat, n: nat) {
    n <= |s| && forall i :: 0 <= i < n ==> s[i] != x
  }

  lemma AbsentStart(s: seq<nat>, x: nat)
    ensures Absent(s, x, 0)
  {
  }

  lemma AbsentNext(s: seq<nat>, x: nat, n: nat)
    requires Absent(s, x, n)
    ensures n < |s| && s[n] != x ==> Absent(s, x, n + 1)
    ensures n < |s| && s[n] == x ==> x in s
    ensures n == |s| ==> x !in s
  {
  }

  function RemoveFirst(s: seq<nat>, x: nat): seq<nat> {
    if s == [] then [] else if s[0] == x then s[1..] else [s[0]] + RemoveFirst(s[1..], x)
  }

  lemma {:induction false} RemoveFirstAt(s: seq<nat>, x: nat, k: nat)
    requires k < |s| && s[k] == x && Absent(s, x, k)
    ensures RemoveFirst(s, x) == Drop(s, k)
  {
    if k > 0 {
      assert s[0] != x;
      RemoveFirstAt(s[1..], x, k - 1);
      assert s[..k] + s[k + 1..] == [s[0]] + (s[1..][..k - 1] + s[1..][k..]);
    }
  }

  /** Whether the k-th visit removes its element. */
  predicate Drops(drop: seq<bool>, k: nat) { k < |drop| && drop[k] }

  lemma VisitDrops(drop: seq<bool>, k: nat)
    ensures Drops(drop, k) == (k < |drop| && drop[k])
  {
  }

  function Kept(s: seq<nat>, drop: seq<bool>): seq<nat> {
    if s == [] then []
    else Kept(s[..|s| - 1], drop) + if Drops(drop, |s| - 1) then [] else [s[|s| - 1]]
  }

  lemma {:induction false} KeptNothing(s: seq<nat>, drop: seq<bool>)
    requires forall k :: 0 <= k < |s| ==> Drops(drop, k)
    ensures Kept(s, drop) == []
  {
    if s != [] {
      KeptNothing(s[..|s| - 1], drop);
    }
  }

  /** The items seen are the first ones, and those of them that are kept are
      the first k - 1 items now. */
  ghost predicate Filtering(now: seq<nat>, seen: seq<nat>, s: seq<nat>, drop: seq<bool>, k: nat) {
    && |seen| <= |s| && seen == s[..|seen|]
    && k == |Kept(seen, drop)| + 1
    && now == Kept(seen, drop) + s[|seen|..]
  }

  lemma FilterStart(s: seq<nat>, drop: seq<bool>)
    ensures Filtering(s, [], s, drop, 1)
  {
  }

  lemma FilterStep(now: seq<nat>, seen: seq<nat>, s: seq<nat>, drop: seq<bool>, k: nat)
    requires Filtering(now, seen, s, drop, k) && 0 < k <= |now|
    ensures if Drops(drop, |seen|) then Filtering(Drop(now, k - 1), seen + [now[k - 1]], s, drop, k)
            else Filtering(now, seen + [now[k - 1]], s, drop, k + 1)
  {
    hide Drops;
    var m, all := |seen|, seen + [now[k - 1]];
    assert s[m..] == [s[m]] + s[m + 1..];
    assert all[..m] == seen && s[..m + 1] == all;
  }

  lemma FilterEnd(now: seq<nat>, seen: seq<nat>, s: seq<nat>, drop: seq<bool>, k: nat)
    requires Filtering(now, seen, s, drop, k) && k == |now| + 1
    ensures now == Kept(s, drop) && seen == s
  {
  }

  lemma {:induction false} SomeUnused(used: set<nat>, n: nat)
    requires (forall i :: i in used ==> i < n) && |used| < n
    ensures exists i: nat :: i < n && i !in used
  {
    if n - 1 in used {
      SomeUnused(used - {n - 1}, n - 1);
      var i: nat :| i < n - 1 && i !in used - {n - 1};
      assert i < n && i !in used;
    } else {
      assert n - 1 < n;
    }
  }

  // ------------------------------------------------------------ whole histories

  datatype Operation = Append(x: nat) | Remove(x: nat) | Foreach(drop: seq<bool>)

  /** What there is after some operations: the items, whether the list has been
      set up, and whether the program still runs. */
  datatype History = History(items: seq<nat>, setUp: bool, alive: bool)

  function AfterOne(h: History, op: Operation): History {
    if !h.alive then h
    else
      match op
      case Append(x) => History(h.items + [x], true, true)
      case Remove(x) => if h.setUp && x in h.items then History(RemoveFirst(h.items, x), true, true) else h.(alive := false)
      case Foreach(drop) => if h.setUp then History(Kept(h.items, drop), true, true) else h.(alive := false)
  }

  function AfterAll(ops: seq<Operation>): History {
    if ops == [] then History([], false, true) else AfterOne(AfterAll(ops[..|ops| - 1]), ops[|ops| - 1])
  }

  lemma AfterNext(ops: seq<Operation>, i: nat)
    requires i < |ops|
    ensures AfterAll(ops[..i + 1]) == AfterOne(AfterAll(ops[..i]), ops[i])
  {
    assert ops[..i + 1][..i] == ops[..i];
  }

  lemma {:induction false} AfterTheEnd(ops: seq<Operation>, i: nat)
    requires i <= |ops| && !AfterAll(ops[..i]).alive
    ensures AfterAll(ops) == AfterAll(ops[..i])
    decreases |ops|
  {
    if i < |ops| {
      assert ops[..|ops| - 1][..i] == ops[..i];
      AfterTheEnd(ops[..|ops| - 1], i);
    } else {
      assert ops[..i] == ops;
    }
  }

  /** Any history of operations on a list that starts out zeroed: the list holds
      what a plain sequence would, and the program ends where that says so. */
  method RunAll(ops: seq<Operation>) returns (list: List, alive: bool)
    ensures fresh(list) && list.Valid()
    ensures list.Contents() == AfterAll(ops).items && alive == AfterAll(ops).alive
  {
    hide *;
    list := new List();
    alive := true;
    var i := 0;
    NothingYet(list, ops);
    while i < |ops| && alive
      invariant 0 <= i <= |ops| && fresh(list) && fresh(list.pool) && fresh(list.ring)
      invariant list.Valid() && AfterAll(ops[..i]) == History(list.Contents(), list.Initialised(), alive)
    {
      AfterNext(ops, i);
      alive := Perform(list, ops[i]);
      i := i + 1;
    }
    if alive {
      assert ops[..i] == ops;
    } else {
      AfterTheEnd(ops, i);
    }
  }

  lemma NothingYet(list: List, ops: seq<Operation>)
    requires list.Valid() && !list.Initialised()
    ensures list.ring == [] && AfterAll(ops[..0]) == History(list.Contents(), false, true)
  {
  }

  method Perform(list: List, op: Operation) returns (alive: bool)
    requires list.Valid()
    modifies list, list.pool, list.ring
    ensures list.Valid()
    ensures forall i {:trigger list.ring[i]} :: 0 <= i < |list.ring| ==>
      fresh(list.ring[i]) || list.ring[i] in list.pool || list.ring[i] in old(list.ring)
    ensures AfterOne(History(old(list.Contents()), old(list.Initialised()), true), op)
         == History(list.Contents(), list.Initialised(), alive)
  {
    hide RemoveFirst, Kept, Drops, DataOf, Distinct, Chained;
    match op {
      case Append(x) =>
        list.Append(x);
        alive := true;
      case Remove(x) =>
        alive := list.Remove(x);
      case Foreach(drop) =>
        var seen;
        alive, seen := list.Foreach(drop);
    }
  }
}
