/** The hash table of items: buckets of singly linked chains. */
module Assoc {
  import opened Common
  import opened PsList

  type Key = int
  type Value = int

  datatype Item = Item(key: Key, data: Value, next: Addr)

  /** h_next pointers lead from `first` through `xs` to NULL. */
  ghost predicate Chain(items: map<Addr, Item>, first: Addr, xs: seq<Addr>) {
    Distinct(xs) && (forall p <- xs :: p in items) &&
    (if xs == [] then first == 0 else first == xs[0] && items[xs[|xs| - 1]].next == 0) &&
    forall i :: 0 <= i < |xs| - 1 ==> items[xs[i]].next == xs[i + 1]
  }

  /** `at` says where the item of each key is; no key has two. */
  ghost predicate Indexed(items: map<Addr, Item>, at: map<Key, Addr>) {
    0 !in items && (forall k <- at :: at[k] in items && items[at[k]].key == k) &&
    forall p <- items :: items[p].key in at && at[items[p].key] == p
  }

  lemma ChainFrame(items: map<Addr, Item>, items': map<Addr, Item>, first: Addr, xs: seq<Addr>)
    requires Chain(items, first, xs) && forall p <- xs :: p in items ==> p in items' && items'[p].next == items[p].next
    ensures Chain(items', first, xs)
  {
  }

  lemma ChainPush(items: map<Addr, Item>, first: Addr, xs: seq<Addr>, p: Addr, k: Key, v: Value)
    requires Chain(items, first, xs) && p !in items
    ensures Chain(items[p := Item(k, v, first)], p, [p] + xs)
  {
    var ys := [p] + xs;
    assert forall i :: 0 < i < |ys| ==> ys[i] == xs[i - 1] && ys[i] in xs;
  }

  /** What the items say, as a map. */
  ghost function Stored(items: map<Addr, Item>, at: map<Key, Addr>): map<Key, Value>
    requires Indexed(items, at)
  {
    map k | k in at :: items[at[k]].data
  }

  /** Overwriting an item's data changes the map at its key. */
  lemma Overwritten(items: map<Addr, Item>, at: map<Key, Addr>, p: Addr, v: Value)
    requires Indexed(items, at) && p in items
    ensures Indexed(items[p := items[p].(data := v)], at)
    ensures Stored(items[p := items[p].(data := v)], at) == Stored(items, at)[items[p].key := v]
  {
    var items' := items[p := items[p].(data := v)];
    var m, m' := Stored(items, at)[items[p].key := v], Stored(items', at);
    forall k | k in at ensures m'[k] == m[k] {
      assert items[at[k]].key == k;
    }
    assert m'.Keys == at.Keys && m.Keys == at.Keys;
    assert m == m';
  }

  lemma IndexedInsert(items: map<Addr, Item>, at: map<Key, Addr>, p: Addr, it: Item)
    requires Indexed(items, at) && p !in items && p != 0 && it.key !in at
    ensures Indexed(items[p := it], at[it.key := p])
  {
  }

  /** So does adding an item for a key that had none. */
  lemma Inserted(items: map<Addr, Item>, at: map<Key, Addr>, p: Addr, it: Item)
    requires Indexed(items, at) && p !in items && p != 0 && it.key !in at
    ensures Indexed(items[p := it], at[it.key := p])
    ensures Stored(items[p := it], at[it.key := p]) == Stored(items, at)[it.key := it.data]
  {
    IndexedInsert(items, at, p, it);
    var m, m' := Stored(items, at)[it.key := it.data], Stored(items[p := it], at[it.key := p]);
    assert m'.Keys == at.Keys + {it.key} && m.Keys == at.Keys + {it.key};
    forall k | k in m ensures m'[k] == m[k] {
      assert k in at ==> items[at[k]].key == k;
    }
    assert m == m';
  }

  function BucketOf(hash: Key -> nat, n: nat, k: Key): (b: nat)
    requires n > 0
    ensures b < n
  {
    hash(k) % n
  }

  /** Every item is in the chain of its key's bucket, and the chains hold nothing
      else. */
  ghost predicate Housed(items: map<Addr, Item>, chains: seq<seq<Addr>>, hash: Key -> nat) {
    chains != [] &&
    (forall p <- items :: p in chains[BucketOf(hash, |chains|, items[p].key)]) &&
    forall b, p :: 0 <= b < |chains| && p in chains[b] ==> p in items && BucketOf(hash, |chains|, items[p].key) == b
  }

  lemma HousedOverwrite(items: map<Addr, Item>, chains: seq<seq<Addr>>, hash: Key -> nat, p: Addr, v: Value)
    requires Housed(items, chains, hash) && p in items
    ensures Housed(items[p := items[p].(data := v)], chains, hash)
  {
    hide BucketOf;
  }

  lemma HousedInsert(items: map<Addr, Item>, chains: seq<seq<Addr>>, hash: Key -> nat, p: Addr, it: Item)
    requires Housed(items, chains, hash) && p !in items
    ensures var b := BucketOf(hash, |chains|, it.key); Housed(items[p := it], chains[b := [p] + chains[b]], hash)
  {
    hide BucketOf;
    var b := BucketOf(hash, |chains|, it.key);
    var chains' := chains[b := [p] + chains[b]];
    assert forall c, q :: 0 <= c < |chains| ==> (q in chains'[c] <==> q in chains[c] || (c == b && q == p));
  }

  class Table {
    const hash: Key -> nat                 // the hash a message carries with its key
    const heads: array<Addr>
    var items: map<Addr, Item>
    ghost var chains: seq<seq<Addr>>
    ghost var at: map<Key, Addr>

    ghost predicate Valid()
      reads this, heads
    {
      && heads.Length > 0 && |chains| == heads.Length && Indexed(items, at) && Housed(items, chains, hash)
      && forall b :: 0 <= b < |chains| ==> Chain(items, heads[b], chains[b])
    }

    ghost function Contents(): map<Key, Value>
      requires Indexed(items, at)
      reads this
    {
      Stored(items, at)
    }

    constructor (size: nat, hash: Key -> nat)
      requires size > 0
      ensures Valid() && Contents() == map[] && fresh(heads)
    {
      this.hash := hash;
      heads := new Addr[size](_ => 0);
      items := map[];
      chains, at := seq(size, _ => []), map[];
    }

    /** assoc_find: the item with the key, or NULL if the table has none. */
    method Find(k: Key) returns (p: Addr)
      requires Valid()
      ensures p == 0 <==> k !in Contents()
      ensures p != 0 ==> p in items && items[p].key == k && items[p].data == Contents()[k]
    {
      var b := BucketOf(hash, heads.Length, k);
      ghost var xs := chains[b];
      ghost var i := 0;
      p := heads[b];
      while p != 0 && items[p].key != k
        invariant i <= |xs| && p == (if i == |xs| then 0 else xs[i])
        invariant forall j :: 0 <= j < i ==> items[xs[j]].key != k
        decreases |xs| - i
      {
        p := items[p].next;
        i := i + 1;
      }
    }

    /** mc_set_key_ext: the item is overwritten in place if there is one, and
        otherwise a new one goes to the front of its chain. */
    method Set(k: Key, v: Value)
      requires Valid()
      modifies this, heads
      ensures Valid() && Contents() == old(Contents())[k := v]
      ensures if k in old(Contents()) then items.Keys == old(items).Keys else |items| == |old(items)| + 1
      ensures forall p <- old(items) :: p in items && items[p].key == old(items)[p].key
    {
      var p := Find(k);
      if p != 0 {
        Overwrite(p, v);
      } else {
        Insert(k, v);
      }
    }

    method Overwrite(p: Addr, v: Value)
      requires Valid() && p in items
      modifies this`items
      ensures Valid() && Contents() == old(Contents())[old(items)[p].key := v] && items.Keys == old(items).Keys
      ensures forall q <- old(items) :: items[q].key == old(items)[q].key
    {
      hide Chain, Indexed, Housed, Stored;
      Overwritten(items, at, p, v);
      HousedOverwrite(items, chains, hash, p, v);
      ghost var items' := items[p := items[p].(data := v)];
      forall b | 0 <= b < |chains| ensures Chain(items', heads[b], chains[b]) {
        ChainFrame(items, items', heads[b], chains[b]);
      }
      items := items[p := items[p].(data := v)];
    }

    /** assoc_insert of a new item. */
    method Insert(k: Key, v: Value)
      requires Valid() && k !in at
      modifies this, heads
      ensures Valid() && Contents() == old(Contents())[k := v] && |items| == |old(items)| + 1
      ensures forall q <- old(items) :: q in items && items[q] == old(items)[q]
    {
      hide Chain, Housed, Stored, BucketOf;
      ghost var w := FreshAddress(items.Keys);
      assert w != 0 && w !in items;
      var p: Addr :| p != 0 && p !in items;
      var b := BucketOf(hash, heads.Length, k);
      ghost var items' := items[p := Item(k, v, heads[b])];
      Inserted(items, at, p, Item(k, v, heads[b]));
      HousedInsert(items, chains, hash, p, Item(k, v, heads[b]));
      ChainPush(items, heads[b], chains[b], p, k, v);
      forall c | 0 <= c < |chains| && c != b ensures Chain(items', heads[c], chains[c]) {
        ChainFrame(items, items', heads[c], chains[c]);
      }
      items := items[p := Item(k, v, heads[b])];
      heads[b] := p;
      chains, at := chains[b := [p] + chains[b]], at[k := p];
    }
  }
}
