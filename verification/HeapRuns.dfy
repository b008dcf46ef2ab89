/** Arbitrary runs of a client that keeps its pointers in a table. */
module HeapRuns {
  import opened Words
  import opened HeapSizes
  import opened Heap
  import opened HeapBytes

  /** `offer` is what the page layer would answer if asked during the request. */
  datatype Request = Alloc(slot: nat, size: nat, offer: nat) | Release(slot: nat)
    | Resize(slot: nat, size: nat, offer: nat)

  /** The pointers in the table are exactly the live allocations, each held once. */
  ghost predicate Holds(slots: seq<Tag?>, live: set<Tag>) {
    && (forall i :: 0 <= i < |slots| && slots[i] != null ==> slots[i] in live)
    && (forall i, j :: 0 <= i < j < |slots| && slots[i] != null ==> slots[i] != slots[j])
    && (forall t <- live :: t in slots)
  }

  ghost function One(p: Tag?): (r: set<Tag>) {
    if p == null then {} else {p}
  }

  /** Replacing the pointer of one slot replaces one allocation. */
  lemma HoldsAfter(slots: seq<Tag?>, i: nat, q: Tag?, live: set<Tag>, after: set<Tag>)
    requires i < |slots| && Holds(slots, live) && after == live - One(slots[i]) + One(q) && (q == null || q !in live)
    ensures Holds(slots[i := q], after)
  {
    forall t <- after ensures t in slots[i := q] {
      if t != q {
        var j :| 0 <= j < |slots| && slots[j] == t;
        assert slots[i := q][j] == t;
      } else {
        assert slots[i := q][i] == t;
      }
    }
  }

  class Client {
    const heap: Allocator
    const memory: Memory
    var slots: seq<Tag?>

    ghost predicate Valid()
      reads this, heap, heap.pages`lent, heap.freePages, heap.completePages, heap.tags
    {
      heap.Valid() && memory.ram.Length == WORD && Holds(slots, heap.Live())
    }

    constructor (n: nat)
      ensures Valid() && |slots| == n && heap.Live() == {}
      ensures fresh(heap) && fresh(heap.pages) && fresh(heap.freePages) && fresh(heap.completePages)
        && fresh(memory.ram)
      ensures forall t <- heap.tags :: fresh(t)
    {
      var pages := new PageSource();
      heap := new Allocator(pages);
      memory := new Memory();
      slots := seq(n, _ => null);
    }

    /** A page layer that broke its promise is taken to have answered NULL. */
    method Answer(size: nat, offer: nat) returns (a: nat)
      ensures a == 0 || heap.pages.CanLend(a, PagesFor(size))
    {
      a := if heap.pages.CanLend(offer, PagesFor(size)) then offer else 0;
    }

    method Replace(i: nat, size: nat, offer: nat)
      requires Valid() && i < |slots| && size < WORD - HEADER
      modifies this, heap, heap.pages`lent, heap.freePages, heap.completePages, heap.tags, memory.ram
      ensures Valid() && |slots| == old(|slots|)
      ensures forall t <- heap.tags :: t in old(heap.tags) || fresh(t)
    {
      var a := Answer(size, offer);
      var q := Realloc(heap, memory, slots[i], size, a);
      HoldsAfter(slots, i, q, old(heap.Live()), heap.Live());
      slots := slots[i := q];
    }

    method Fill(i: nat, size: nat, offer: nat)
      requires Valid() && i < |slots| && size < WORD - HEADER && slots[i] == null
      modifies this, heap, heap.pages`lent, heap.freePages, heap.completePages, heap.tags
      ensures Valid() && |slots| == old(|slots|)
      ensures forall t <- heap.tags :: t in old(heap.tags) || fresh(t)
    {
      var a := Answer(size, offer);
      var q := heap.Malloc(size, a);
      HoldsAfter(slots, i, q, old(heap.Live()), heap.Live());
      slots := slots[i := q];
    }

    method Empty(i: nat)
      requires Valid() && i < |slots|
      modifies this, heap, heap.pages`lent, heap.freePages, heap.completePages, heap.tags
      ensures Valid() && |slots| == old(|slots|) && heap.tags <= old(heap.tags)
    {
      heap.Free(slots[i]);
      HoldsAfter(slots, i, null, old(heap.Live()), heap.Live());
      slots := slots[i := null];
    }

    method Step(r: Request)
      requires Valid()
      modifies this, heap, heap.pages`lent, heap.freePages, heap.completePages, heap.tags, memory.ram
      ensures Valid() && |slots| == old(|slots|)
      ensures forall t <- heap.tags :: t in old(heap.tags) || fresh(t)
    {
      if r.slot < |slots| {
        match r
        case Alloc(i, size, offer) =>
          if slots[i] == null && size < WORD - HEADER {
            Fill(i, size, offer);
          }
        case Release(i) =>
          Empty(i);
        case Resize(i, size, offer) =>
          if size < WORD - HEADER {
            Replace(i, size, offer);
          }
      }
    }

    /** The joint invariant holds after every run of malloc, free and realloc. */
    method Run(rs: seq<Request>)
      requires Valid()
      modifies this, heap, heap.pages`lent, heap.freePages, heap.completePages, heap.tags, memory.ram
      ensures Valid() && |slots| == old(|slots|)
    {
      for i := 0 to |rs|
        invariant Valid() && |slots| == old(|slots|)
        invariant forall t <- heap.tags :: t in old(heap.tags) || fresh(t)
      {
        Step(rs[i]);
      }
    }
  }
}
