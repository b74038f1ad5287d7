/** The pool of one-megabyte chunks under the slabs of a node. */
module MemMgr {
  import opened PsList

  const MEM_MGR_OBJ_SZ: nat := 1024 * 1024

  /** The chunks at two addresses do not overlap. */
  predicate Apart(a: Addr, b: Addr) {
    a + MEM_MGR_OBJ_SZ <= b || b + MEM_MGR_OBJ_SZ <= a
  }

  /** The chunk of the `i`-th item. */
  function ChunkAt(start: Addr, i: nat): Addr {
    start + i * MEM_MGR_OBJ_SZ
  }

  lemma ChunksApart(start: Addr, i: nat, j: nat)
    requires i < j
    ensures Apart(ChunkAt(start, i), ChunkAt(start, j))
  {
  }

  class Pool {
    const head: Addr                 // free_mem_head
    const links: LinkMemory          // the list field of every item
    var addr: map<Addr, Addr>        // item -> its chunk
    ghost var items: seq<Addr>       // the free items, first to be handed out first
    ghost var out: set<Addr>         // the items handed out

    /** Every item is free, and on the list once, or handed out; the chunks of
        different items do not overlap. */
    ghost predicate Valid() reads this, links {
      links.Ring([head] + items) &&
      addr.Keys == SetOf(items) + out && SetOf(items) !! out && head !in addr.Keys &&
      0 !in addr.Values &&
      forall a <- addr, b <- addr :: a != b ==> Apart(addr[a], addr[b])
    }

    constructor (head: Addr)
      ensures Valid() && fresh(links)
      ensures this.head == head && addr == map[] && items == [] && out == {}
    {
      this.head := head;
      links := new LinkMemory();
      addr := map[];
      items := [];
      out := {};
      new;
      links.Init(head);
    }

    /** mem_mgr_init: `mems[i]` gets the `i`-th chunk and goes to the end of the
        list. */
    method Init(mems: seq<Addr>, start: Addr)
      requires Valid() && items == [] && out == {}
      requires Distinct(mems) && head !in mems && start > 0
      modifies this, links
      ensures Valid() && items == mems && out == {}
      ensures forall i :: 0 <= i < |mems| ==> mems[i] in addr && addr[mems[i]] == ChunkAt(start, i)
    {
      hide IsRing, Apart, SameOutside;
      var a := start;
      for i := 0 to |mems|
        invariant a == ChunkAt(start, i)
        invariant items == mems[..i] && out == {}
        invariant links.Ring([head] + items)
        invariant addr.Keys == SetOf(items)
        invariant forall k :: 0 <= k < i ==> mems[k] in addr && addr[mems[k]] == ChunkAt(start, k)
      {
        AddChunk(mems[i], a);
        a := a + MEM_MGR_OBJ_SZ;
        assert mems[..i + 1] == mems[..i] + [mems[i]];
      }
      assert mems[..|mems|] == mems;
      ItemsApart(mems, start, addr);
    }

    /** One round of the initialisation. */
    method AddChunk(item: Addr, a: Addr)
      requires links.Ring([head] + items) && item !in [head] + items
      modifies this`items, this`addr, links
      ensures items == old(items) + [item] && links.Ring([head] + items) && addr == old(addr)[item := a]
    {
      addr := addr[item := a];
      InitElsewhere(links, item, [head] + items);
      links.Init(item);
      Append(item);
    }

    /** ps_list_head_append */
    method Append(item: Addr)
      requires links.Ring([head] + items) && item !in [head] + items
      modifies this`items, links
      ensures items == old(items) + [item] && links.Ring([head] + items)
    {
      ghost var xs := [head] + items;
      assert head in xs && links.p[head] == xs[|xs| - 1];
      links.Add(links.p[head], item, xs);
      items := items + [item];
      assert [head] + items == xs + [item];
    }

    /** mem_mgr_alloc: the first free item.  The original stops at an assertion
        when there is none: `item` is then NULL. */
    method Alloc() returns (item: Addr)
      requires Valid() && 0 !in addr.Keys
      modifies this`items, this`out, links
      ensures Valid()
      ensures old(items) == [] ==> item == 0 && items == [] && out == old(out)
      ensures old(items) != [] ==>
                old(items) == [item] + items && out == old(out) + {item} && item !in old(out) && item in addr
    {
      hide IsRing, Apart, SetOf, Distinct, SameOutside;
      ghost var xs := [head] + items;
      NextOf(links.n, links.p, xs, 0);
      var empty := links.Singleton(head, xs);
      if empty {
        return 0;
      }
      item := links.n[head];
      FirstLast(links.n, links.p, xs);
      assert xs[1..] + [xs[0]] == items + [head];
      links.Rem(item, items + [head]);
      assert (items + [head])[1..] == items[1..] + [head];
      LastFirst(links.n, links.p, items[1..], head);
      assert items == [item] + items[1..];
      RingDistinct(old(links.n), old(links.p), xs);
      SplitOff(head, items, item);
      assert item in SetOf(items);
      out := out + {item};
      items := items[1..];
    }

    /** mem_mgr_free: to the end of the list. */
    method Free(item: Addr)
      requires Valid() && item in out
      modifies this`items, this`out, links
      ensures Valid() && items == old(items) + [item] && out == old(out) - {item}
    {
      assert item !in items;
      Append(item);
      out := out - {item};
    }
  }

  lemma SplitOff(head: Addr, items: seq<Addr>, item: Addr)
    requires items != [] && item == items[0] && Distinct([head] + items)
    ensures SetOf(items) == SetOf(items[1..]) + {item} && item !in SetOf(items[1..])
  {
    assert items == [item] + items[1..];
    var xs := [head] + items;
    assert xs[1] == item;
    assert forall k :: 0 <= k < |items| - 1 ==> items[1..][k] == xs[k + 2];
  }

  /** Initialising a node of its own disturbs no ring. */
  lemma InitElsewhere(links: LinkMemory, x: Addr, xs: seq<Addr>)
    requires links.Ring(xs) && x !in xs
    ensures IsRing(links.n[x := x], links.p[x := x], xs)
  {
  }

  lemma ItemsApart(mems: seq<Addr>, start: Addr, addr: map<Addr, Addr>)
    requires Distinct(mems) && start > 0 && addr.Keys == SetOf(mems)
    requires forall k :: 0 <= k < |mems| ==> addr[mems[k]] == ChunkAt(start, k)
    ensures forall a <- addr, b <- addr :: a != b ==> Apart(addr[a], addr[b])
    ensures 0 !in addr.Values
  {
    forall a <- addr, b <- addr | a != b ensures Apart(addr[a], addr[b]) {
      var i :| 0 <= i < |mems| && mems[i] == a;
      var j :| 0 <= j < |mems| && mems[j] == b;
      if i < j {
        ChunksApart(start, i, j);
      } else {
        ChunksApart(start, j, i);
      }
    }
    forall a <- addr ensures addr[a] != 0 {
      var i :| 0 <= i < |mems| && mems[i] == a;
    }
  }
}
