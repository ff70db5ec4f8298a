/** The page file: a page count and a freelist threaded through the free pages (storage/pager.go). */
module Pagers {
  import opened Nodes
  import opened Levels

  /** The freelist starting at `head` is exactly `free`, ends at 0 and visits no page twice. */
  ghost predicate FreeChain(pages: Pages, head: PageId, free: seq<PageId>)
    decreases free
  {
    if free == [] then head == 0
    else head == free[0] && head in pages && pages[head].Free? && head !in free[1..]
         && FreeChain(pages, pages[head].link, free[1..])
  }

  lemma {:induction false} FreeChainFrame(p: Pages, q: Pages, head: PageId, free: seq<PageId>)
    requires FreeChain(p, head, free)
    requires forall id <- free :: id in p ==> id in q && p[id] == q[id]
    ensures FreeChain(q, head, free)
    decreases free
  {
    if free != [] {
      assert free[0] in free && forall id <- free[1..] :: id in free;
      FreeChainFrame(p, q, p[head].link, free[1..]);
    }
  }

  lemma {:induction false} FreeChainFacts(p: Pages, head: PageId, free: seq<PageId>)
    requires FreeChain(p, head, free)
    ensures forall x :: multiset(free)[x] == (if x in free then 1 else 0)
    ensures forall x <- free :: x in p
    decreases free
  {
    if free != [] {
      assert free == [free[0]] + free[1..];
      FreeChainFacts(p, p[head].link, free[1..]);
    }
  }

  /** A list through a page fixes what the page holds. */
  lemma {:induction false} SameLink(p: Pages, q: Pages, head: PageId, free: seq<PageId>, id: PageId)
    requires FreeChain(p, head, free) && FreeChain(q, head, free) && id in free
    ensures id in p && id in q && p[id] == q[id]
    decreases free
  {
    assert p[head].link == q[head].link by {
      assert FreeChain(p, p[head].link, free[1..]) && FreeChain(q, q[head].link, free[1..]);
    }
    if id != head { SameLink(p, q, p[head].link, free[1..], id); }
  }

  /** Any list that follows the old one comes to the page it held. */
  lemma {:induction false} ListReaches(p: Pages, q: Pages, head: PageId, free: seq<PageId>, id: PageId, f: seq<PageId>)
    requires FreeChain(p, head, free) && id in free && (forall x :: x in p && x != id ==> x in q && q[x] == p[x])
             && 0 !in p
    requires FreeChain(q, head, f)
    ensures id in f
    decreases free
  {
    if head != id { ListReaches(p, q, p[head].link, free[1..], id, f[1..]); }
  }

  /** A free page pushed again: no list starts at it. */
  lemma {:induction false} FreedTwice(p: Pages, q: Pages, head: PageId, free: seq<PageId>, id: PageId, f: seq<PageId>)
    requires FreeChain(p, head, free) && id in free && q == p[id := Free(head)] && 0 !in p && id in p
    ensures !FreeChain(q, id, f)
  {
    if FreeChain(q, id, f) { ListReaches(p, q, head, free, id, f[1..]); }
  }

  class Pager {
    var pages: Pages
    var freeListHead: PageId
    var pageCount: nat
    /** Page 0 still holds the header of the file. */
    var intact: bool
    ghost var free: seq<PageId>

    ghost predicate Valid()
      reads this
    {
      pageCount >= 1 && intact
      && (forall id :: id in pages <==> 1 <= id < pageCount)
      && FreeChain(pages, freeListHead, free)
    }

    /** How often page `x` has been handed out and not taken back: 0 or 1, see InUseRange. */
    ghost function InUse(x: PageId): int
      reads this
    {
      (if 1 <= x < pageCount then 1 else 0) as int - multiset(free)[x]
    }

    lemma {:induction false} InUseRange(x: PageId)
      requires Valid()
      ensures InUse(x) == if 1 <= x < pageCount && x !in free then 1 else 0
    {
      FreeChainFacts(pages, freeListHead, free);
    }

    /** A new file: the header page only. */
    constructor ()
      ensures Valid()
      ensures pageCount == 1 && free == [] && pages == map[]
      ensures forall x :: InUse(x) == 0
    {
      pages, freeListHead, pageCount, intact, free := map[], 0, 1, true, [];
    }

    /** Pops the freelist, or grows the file by one zeroed page when it is empty. */
    method AllocatePage() returns (id: PageId)
      requires Valid()
      modifies this
      ensures Valid()
      ensures id != 0 && id in pages && old(InUse(id)) == 0
      ensures forall x :: InUse(x) == old(InUse(x)) + if x == id then 1 else 0
      ensures forall x :: x in old(pages) && x != id ==> x in pages && pages[x] == old(pages)[x]
      ensures old(free) != [] ==> pageCount == old(pageCount) && id == old(free)[0] && free == old(free)[1..]
      ensures old(free) == [] ==> id == old(pageCount) && pageCount == old(pageCount) + 1 && free == []
    {
      FreeChainFacts(pages, freeListHead, free);
      if freeListHead != 0 {
        id := freeListHead;
        freeListHead := pages[id].link;
        assert free == [free[0]] + free[1..];
        free := free[1..];
        return;
      }
      assert free == [];
      id := pageCount;
      pages := pages[id := Free(0)];
      pageCount := pageCount + 1;
    }

    /**
      * Pushes a page onto the freelist; any page below the count is accepted.
      * The list stays a list if and only if the page was in use: freeing a page
      * twice closes a cycle. Page 0 takes the header and all of the list with it.
      */
    method FreePage(id: PageId) returns (ok: bool)
      requires Valid()
      modifies this
      ensures ok <==> id < pageCount
      ensures pageCount == old(pageCount) && freeListHead == if ok then id else old(freeListHead)
      ensures !ok ==> Valid() && pages == old(pages) && free == old(free)
      ensures ok && id != 0 ==> pages == old(pages)[id := Free(old(freeListHead))] && free == [id] + old(free) && intact
      ensures id == 0 ==> pages == old(pages) && free == [] && FreeChain(pages, freeListHead, []) && !intact
      ensures ok ==> (Valid() <==> old(InUse(id)) == 1)
      ensures ok && id != 0 && old(InUse(id)) != 1 ==> forall f :: !FreeChain(pages, freeListHead, f)
    {
      InUseRange(id);
      ok := id < pageCount;
      if !ok { return; }
      if id == 0 {
        intact, freeListHead, free := false, 0, [];
        return;
      }
      ghost var p := pages;
      pages := pages[id := Free(freeListHead)];
      if id !in free {
        FreeChainFrame(p, pages, freeListHead, free);
      } else {
        forall f ensures !FreeChain(pages, id, f) { FreedTwice(p, pages, freeListHead, free, id, f); }
      }
      freeListHead := id;
      free := [id] + free;
      assert free[1..] == old(free);
    }

    /** FreePage for a page that is in use. */
    method Release(id: PageId)
      requires Valid() && InUse(id) == 1
      modifies this
      ensures Valid()
      ensures forall x :: InUse(x) == old(InUse(x)) - if x == id then 1 else 0
      ensures pages == old(pages)[id := Free(old(freeListHead))]
      ensures free == [id] + old(free) && pageCount == old(pageCount)
    {
      InUseRange(id);
      var ok := FreePage(id);
    }

    /**
      * Overwrites a page; any page below the count is accepted. The file
      * survives if and only if the page was in use, or was free and is left as it
      * was.
      */
    method WritePage(id: PageId, data: Page) returns (ok: bool)
      requires Valid()
      modifies this
      ensures ok <==> id < pageCount
      ensures pages == if ok && id != 0 then old(pages)[id := data] else old(pages)
      ensures free == old(free) && pageCount == old(pageCount) && freeListHead == old(freeListHead)
              && intact == (id != 0)
      ensures Valid() <==> !ok || old(InUse(id)) == 1 || (id != 0 && data == old(pages)[id])
    {
      InUseRange(id);
      ok := id < pageCount;
      if !ok { return; }
      if id == 0 {
        intact := false;
        return;
      }
      ghost var p := pages;
      pages := pages[id := data];
      if id !in free || data == p[id] {
        FreeChainFrame(p, pages, freeListHead, free);
      } else if FreeChain(pages, freeListHead, free) {
        SameLink(p, pages, freeListHead, free, id);
      }
    }

    /** WritePage for a page that is in use. */
    method Overwrite(id: PageId, data: Page)
      requires Valid() && InUse(id) == 1
      modifies this
      ensures Valid()
      ensures pages == old(pages)[id := data]
      ensures free == old(free) && pageCount == old(pageCount)
      ensures forall x :: InUse(x) == old(InUse(x))
    {
      InUseRange(id);
      var ok := WritePage(id, data);
    }
  }
}
