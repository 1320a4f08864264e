/** MMgc's fixed-size allocator: blocks of one page in a doubly linked list, those that are not full in another. */
module FixedAlloc {
  import opened FixedItems
  import Bits

  const PAGE: nat := 4096

  /** GCHeap: the pages in use, and the first word of what is at each address. */
  class PageHeap {
    var used: set<nat>
    var memory: map<nat, nat>

    constructor (used: set<nat>, memory: map<nat, nat>)
      ensures this.used == used && this.memory == memory
    {
      this.used, this.memory := used, memory;
    }

    /** Any page that is not in use. */
    method Alloc() returns (page: nat)
      modifies `used
      ensures page > 0 && page !in old(used) && used == old(used) + {page}
    {
      SomeUnused(used);
      page :| page > 0 && page !in used;
      used := used + {page};
    }

    method Free(page: nat)
      modifies `used
      ensures used == old(used) - {page}
    {
      used := used - {page};
    }

    method Store(a: nat, v: nat)
      modifies `memory
      ensures memory == old(memory)[a := v]
    {
      memory := memory[a := v];
    }
  }

  lemma Bounded(u: set<nat>) returns (m: nat)
    ensures forall x | x in u :: x <= m
  {
    if u == {} {
      m := 0;
    } else {
      var x :| x in u;
      var r := Bounded(u - {x});
      m := if x > r then x else r;
      forall y | y in u ensures y <= m {
        assert y == x || y in u - {x};
      }
    }
  }

  lemma SomeUnused(u: set<nat>)
    ensures exists p: nat :: p > 0 && p !in u
  {
    var m := Bounded(u);
    assert m + 1 !in u;
  }

  class FixedBlock {
    const page: nat
    var firstFree: nat
    var nextItem: nat
    var next: FixedBlock?
    var prev: FixedBlock?
    var numAlloc: nat
    var prevFree: FixedBlock?
    var nextFree: FixedBlock?
    ghost var items: Items

    constructor (page: nat, first: nat)
      ensures this.page == page && firstFree == 0 && nextItem == first && numAlloc == 0 && items == Items(0, [], {})
      ensures next == null && prev == null && prevFree == null && nextFree == null
    {
      this.page, firstFree, nextItem, numAlloc, items := page, 0, first, 0, Items(0, [], {});
      next, prev, prevFree, nextFree := null, null, null, null;
    }
  }

  function At(s: seq<FixedBlock>, i: int): FixedBlock? { if 0 <= i < |s| then s[i] else null }

  lemma AtIs(s: seq<FixedBlock>, i: int)
    ensures At(s, i) == if 0 <= i < |s| then s[i] else null
  {
  }

  ghost predicate Linked(s: seq<FixedBlock>)
    reads s`next, s`prev
  {
    NoDup(s) && forall i | 0 <= i < |s| :: s[i].next == At(s, i + 1) && s[i].prev == At(s, i - 1)
  }

  ghost predicate FreeLinked(s: seq<FixedBlock>)
    reads s`nextFree, s`prevFree
  {
    NoDup(s) && forall i | 0 <= i < |s| :: s[i].nextFree == At(s, i + 1) && s[i].prevFree == At(s, i - 1)
  }

  function Without(s: seq<FixedBlock>, i: nat): seq<FixedBlock>
    requires i < |s|
  {
    s[..i] + s[i + 1..]
  }

  lemma WithoutIs(s: seq<FixedBlock>, i: nat)
    requires NoDup(s) && i < |s|
    ensures NoDup(Without(s, i)) && s[i] !in Without(s, i) && |Without(s, i)| == |s| - 1
    ensures forall b | b in Without(s, i) :: b in s && b != s[i]
    ensures forall b | b in s && b != s[i] :: b in Without(s, i)
  {
    var t := Without(s, i);
    forall b | b in s && b != s[i] ensures b in t {
      var j :| 0 <= j < |s| && s[j] == b;
      assert if j < i then t[j] == b else t[j - 1] == b;
    }
  }

  lemma WithoutAt(s: seq<FixedBlock>, i: nat, k: nat)
    requires i < |s| && k + 1 < |s|
    ensures Without(s, i)[k] == if k < i then s[k] else s[k + 1]
    ensures At(Without(s, i), k + 1) == At(s, if k + 1 < i then k + 1 else k + 2)
    ensures At(Without(s, i), k - 1) == At(s, if k <= i then k - 1 else k)
  {
  }

  /** Once its neighbours are linked to each other, the rest is a list without element i. */
  lemma WithoutLinked(s: seq<FixedBlock>, i: nat)
    requires NoDup(s) && i < |s|
    requires forall j | 0 <= j < |s| && j != i :: s[j].next == At(s, if j == i - 1 then i + 1 else j + 1)
    requires forall j | 0 <= j < |s| && j != i :: s[j].prev == At(s, if j == i + 1 then i - 1 else j - 1)
    ensures Linked(Without(s, i))
  {
    hide At, Without;
    WithoutIs(s, i);
    WithoutLength(s, i);
    forall k | 0 <= k < |s| - 1
      ensures Without(s, i)[k].next == At(Without(s, i), k + 1) && Without(s, i)[k].prev == At(Without(s, i), k - 1)
    {
      WithoutAt(s, i, k);
    }
  }

  lemma WithoutLength(s: seq<FixedBlock>, i: nat)
    requires i < |s|
    ensures |Without(s, i)| == |s| - 1
    ensures At(Without(s, i), 0) == At(s, if i == 0 then 1 else 0)
    ensures At(Without(s, i), |s| - 2) == At(s, if i == |s| - 1 then |s| - 2 else |s| - 1)
  {
  }

  lemma AtPlus(s: seq<FixedBlock>, b: FixedBlock, k: int)
    ensures At(s + [b], k) == if k == |s| then b else At(s, k)
  {
  }

  /** A list that continues with b. */
  lemma PlusLinked(s: seq<FixedBlock>, b: FixedBlock)
    requires NoDup(s) && b !in s && b.next == null && b.prev == At(s, |s| - 1)
    requires forall j | 0 <= j < |s| :: s[j].next == (if j == |s| - 1 then b else At(s, j + 1)) && s[j].prev == At(s, j - 1)
    ensures Linked(s + [b])
  {
    hide At;
    var t := s + [b];
    AtPlus(s, b, |s| + 1);
    AtPlus(s, b, |s| - 1);
    AtIs(s, |s| + 1);
    forall k | 0 <= k < |s| ensures t[k].next == At(t, k + 1) && t[k].prev == At(t, k - 1) {
      AtPlus(s, b, k + 1);
      AtPlus(s, b, k - 1);
    }
  }

  lemma WithoutFreeLinked(s: seq<FixedBlock>, i: nat)
    requires NoDup(s) && i < |s|
    requires forall j | 0 <= j < |s| && j != i :: s[j].nextFree == At(s, if j == i - 1 then i + 1 else j + 1)
    requires forall j | 0 <= j < |s| && j != i :: s[j].prevFree == At(s, if j == i + 1 then i - 1 else j - 1)
    ensures FreeLinked(Without(s, i))
  {
    hide At, Without;
    WithoutIs(s, i);
    WithoutLength(s, i);
    forall k | 0 <= k < |s| - 1
      ensures Without(s, i)[k].nextFree == At(Without(s, i), k + 1) && Without(s, i)[k].prevFree == At(Without(s, i), k - 1)
    {
      WithoutAt(s, i, k);
    }
  }

  /** Each block has a page of its own. */
  ghost predicate Pages(s: seq<FixedBlock>, at: map<nat, FixedBlock>, used: set<nat>) {
    && (forall b | b in s :: b.page > 0 && b.page in used && b.page in at && at[b.page] == b)
    && forall p | p in at :: at[p] in s && at[p].page == p
  }

  /** What each block has handed out. */
  ghost function LiveSets(s: seq<FixedBlock>): map<FixedBlock, set<nat>>
    reads s`items
  {
    map b | b in s :: b.items.live
  }

  ghost predicate LivesBy(m: map<FixedBlock, set<nat>>, at: map<nat, FixedBlock>, live: set<nat>) {
    && (forall b, x | b in m && x in m[b] :: x in live)
    && forall x | x in live :: x / PAGE in at && at[x / PAGE] in m && x in m[at[x / PAGE]]
  }

  /** The items handed out are those of the blocks. */
  ghost predicate Lives(s: seq<FixedBlock>, at: map<nat, FixedBlock>, live: set<nat>)
    reads s`items
  {
    LivesBy(LiveSets(s), at, live)
  }

  lemma NotLive(m: map<FixedBlock, set<nat>>, at: map<nat, FixedBlock>, live: set<nat>, b: FixedBlock, x: nat)
    requires LivesBy(m, at, live) && b in m && x / PAGE in at && at[x / PAGE] == b && x !in m[b]
    ensures x !in live
  {
  }

  lemma LivesAdded(m: map<FixedBlock, set<nat>>, at: map<nat, FixedBlock>, live: set<nat>, b: FixedBlock, x: nat)
    requires LivesBy(m, at, live) && b in m && x / PAGE in at && at[x / PAGE] == b
    ensures LivesBy(m[b := m[b] + {x}], at, live + {x})
  {
  }

  lemma LivesRemoved(m: map<FixedBlock, set<nat>>, at: map<nat, FixedBlock>, live: set<nat>, b: FixedBlock, x: nat)
    requires LivesBy(m, at, live) && b in m && x / PAGE in at && at[x / PAGE] == b && forall c | c in m && c != b :: x !in m[c]
    ensures LivesBy(m[b := m[b] - {x}], at, live - {x})
  {
  }

  /** The listed blocks are blocks; those not listed have no links. */
  ghost predicate Sublist(s: seq<FixedBlock>, free: seq<FixedBlock>)
    reads s`nextFree, s`prevFree
  {
    (forall b | b in free :: b in s) && forall b | b in s && b !in free :: b.nextFree == null && b.prevFree == null
  }

  lemma PagesPlus(s: seq<FixedBlock>, at: map<nat, FixedBlock>, used: set<nat>, b: FixedBlock)
    requires Pages(s, at, used) && b.page > 0 && b.page !in used
    ensures Pages(s + [b], at[b.page := b], used + {b.page})
  {
  }

  lemma LivesPlus(s: seq<FixedBlock>, at: map<nat, FixedBlock>, used: set<nat>, live: set<nat>, b: FixedBlock)
    requires Pages(s, at, used) && b.page !in used && Lives(s, at, live) && b.items.live == {}
    ensures Lives(s + [b], at[b.page := b], live)
  {
    hide Pages;
    assert b.page !in at by {
      NoPage(s, at, used, b.page);
    }
    LivesMore(LiveSets(s), LiveSets(s + [b]), at, live, b);
  }

  lemma NoPage(s: seq<FixedBlock>, at: map<nat, FixedBlock>, used: set<nat>, p: nat)
    requires Pages(s, at, used) && p !in used
    ensures p !in at
  {
  }

  lemma LivesMore(m: map<FixedBlock, set<nat>>, n: map<FixedBlock, set<nat>>, at: map<nat, FixedBlock>, live: set<nat>, b: FixedBlock)
    requires LivesBy(m, at, live) && b.page !in at && b in n && n[b] == {}
    requires (forall c | c in m :: c in n && n[c] == m[c]) && forall c | c in n && c != b :: c in m
    ensures LivesBy(n, at[b.page := b], live)
  {
    forall c, x | c in n && x in n[c] ensures x in live {
      assert c in m;
    }
  }

  lemma LivesLess(m: map<FixedBlock, set<nat>>, n: map<FixedBlock, set<nat>>, at: map<nat, FixedBlock>, live: set<nat>, b: FixedBlock)
    requires LivesBy(m, at, live) && b in m && m[b] == {} && b.page in at && at[b.page] == b
    requires (forall c | c in n :: c in m && n[c] == m[c]) && forall c | c in m && c != b :: c in n
    ensures LivesBy(n, at - {b.page}, live)
  {
    forall x | x in live ensures x / PAGE in at - {b.page} && at[x / PAGE] in n && x in n[at[x / PAGE]] {
      assert x in m[at[x / PAGE]];
    }
  }

  lemma PagesMinus(s: seq<FixedBlock>, at: map<nat, FixedBlock>, used: set<nat>, i: nat)
    requires Pages(s, at, used) && NoDup(s) && i < |s|
    ensures Pages(Without(s, i), at - {s[i].page}, used - {s[i].page})
  {
    hide Without;
    WithoutIs(s, i);
  }

  lemma PageIs(s: seq<FixedBlock>, at: map<nat, FixedBlock>, used: set<nat>, b: FixedBlock)
    requires Pages(s, at, used) && b in s
    ensures b.page in at && at[b.page] == b
  {
  }

  lemma LivesMinus(s: seq<FixedBlock>, at: map<nat, FixedBlock>, live: set<nat>, i: nat)
    requires Lives(s, at, live) && NoDup(s) && i < |s| && s[i].items.live == {} && s[i].page in at && at[s[i].page] == s[i]
    ensures Lives(Without(s, i), at - {s[i].page}, live)
  {
    hide Without, LivesBy;
    WithoutIs(s, i);
    LivesLess(LiveSets(s), LiveSets(Without(s, i)), at, live, s[i]);
  }

  ghost predicate OnPage(live: set<nat>, page: nat) { exists x :: x in live && x / PAGE == page }

  class FixedAlloc {
    const heap: PageHeap
    /** The size of what precedes the items of a block. */
    const head: nat
    const itemSize: nat
    const itemsPerBlock: nat
    var firstBlock: FixedBlock?
    var lastBlock: FixedBlock?
    var firstFree: FixedBlock?
    var maxAlloc: nat
    /** The block that a page holds. */
    var at: map<nat, FixedBlock>
    ghost var blocks: seq<FixedBlock>
    ghost var free: seq<FixedBlock>
    /** The addresses of the items handed out. */
    ghost var live: set<nat>

    ghost predicate Fits() { itemSize > 0 && head > 0 && itemsPerBlock > 0 && End(head, itemSize, itemsPerBlock) <= PAGE }

    function Base(b: FixedBlock): nat { b.page * PAGE + head }

    ghost predicate BlockSound(b: FixedBlock)
      reads b`items, b`numAlloc, b`firstFree, b`nextItem, heap`memory
    {
      Sound(b.items, Base(b), itemSize, itemsPerBlock, b.numAlloc, b.firstFree, b.nextItem, heap.memory)
    }

    /** The list of all blocks. */
    ghost predicate BlockList()
      reads `blocks, `firstBlock, `lastBlock, blocks`next, blocks`prev
    {
      Linked(blocks) && firstBlock == At(blocks, 0) && lastBlock == At(blocks, |blocks| - 1)
    }

    /** The list of the blocks that are not full. */
    ghost predicate FreeList()
      reads `blocks, `free, `firstFree, free`nextFree, free`prevFree, blocks`nextFree, blocks`prevFree
    {
      FreeLinked(free) && firstFree == At(free, 0) && Sublist(blocks, free)
    }

    ghost predicate AllSound(s: seq<FixedBlock>)
      reads s`items, s`numAlloc, s`firstFree, s`nextItem, heap`memory
    {
      forall b | b in s :: BlockSound(b)
    }

    lemma SoundPlus(s: seq<FixedBlock>, b: FixedBlock)
      requires AllSound(s) && BlockSound(b)
      ensures AllSound(s + [b])
    {
    }

    /** All but the listing of the blocks that are not full. */
    ghost predicate Core()
      reads `blocks, `free, `firstBlock, `lastBlock, `firstFree, `at, `live, `maxAlloc, blocks, free, heap
    {
      && Fits() && BlockList() && FreeList() && Pages(blocks, at, heap.used) && Lives(blocks, at, live)
      && maxAlloc == End(0, itemsPerBlock, |blocks|) && AllSound(blocks)
    }

    ghost predicate Valid()
      reads this, blocks, free, heap
    {
      Core() && forall b | b in blocks :: b in free <==> b.numAlloc < itemsPerBlock
    }

    constructor (itemSize: nat, head: nat, heap: PageHeap)
      requires itemSize > 0 && head > 0 && head + itemSize <= PAGE
      ensures Valid() && live == {} && blocks == [] && this.heap == heap && this.itemSize == itemSize
      ensures End(head, itemSize, itemsPerBlock) <= PAGE < End(head, itemSize, itemsPerBlock + 1)
    {
      this.heap, this.head, this.itemSize := heap, head, itemSize;
      itemsPerBlock := (PAGE - head) / itemSize;
      firstBlock, lastBlock, firstFree, maxAlloc, at := null, null, null, 0, map[];
      blocks, free, live := [], [], {};
      new;
      PerBlock(head, itemSize);
    }

    // ---- the two lists

    method PushFree(b: FixedBlock)
      requires FreeLinked(free) && firstFree == At(free, 0) && b !in free && b.prevFree == null
      modifies `free, `firstFree, b`nextFree, free`prevFree
      ensures FreeLinked(free) && firstFree == At(free, 0) && free == [b] + old(free)
    {
      b.nextFree := firstFree;
      if firstFree != null {
        firstFree.prevFree := b;
      }
      firstFree := b;
      free := [b] + free;
    }

    method PopFree()
      requires FreeLinked(free) && firstFree == At(free, 0) && free != []
      modifies `free, `firstFree, free`nextFree, free`prevFree
      ensures FreeLinked(free) && firstFree == At(free, 0) && free == old(free[1..])
      ensures old(free[0]).nextFree == null && old(free[0]).prevFree == null
    {
      var b := firstFree;
      firstFree := b.nextFree;
      b.nextFree := null;
      if firstFree != null {
        firstFree.prevFree := null;
      }
      free := free[1..];
    }

    method RemoveFree(b: FixedBlock, ghost i: nat)
      requires FreeLinked(free) && firstFree == At(free, 0) && i < |free| && free[i] == b
      modifies `free, `firstFree, free`nextFree, free`prevFree
      ensures FreeLinked(free) && firstFree == At(free, 0) && free == Without(old(free), i)
    {
      hide Without, At;
      WithoutLength(free, i);
      AtIs(free, 0);
      AtIs(free, 1);
      AtIs(free, i - 1);
      AtIs(free, i + 1);
      if firstFree == b {
        firstFree := b.nextFree;
      } else if b.prevFree != null {
        b.prevFree.nextFree := b.nextFree;
      }
      if b.nextFree != null {
        b.nextFree.prevFree := b.prevFree;
      }
      WithoutFreeLinked(free, i);
      free := Without(free, i);
    }

    method AppendBlock(b: FixedBlock)
      requires BlockList() && b !in blocks && b.next == null
      modifies `blocks, `firstBlock, `lastBlock, b`prev, blocks`next
      ensures BlockList() && blocks == old(blocks) + [b]
    {
      hide At;
      AtIs(blocks, 0);
      AtIs(blocks, |blocks| - 1);
      AtIs(blocks, |blocks|);
      AtPlus(blocks, b, 0);
      AtPlus(blocks, b, |blocks|);
      b.prev := lastBlock;
      if lastBlock != null {
        lastBlock.next := b;
      }
      if firstBlock == null {
        firstBlock := b;
      }
      lastBlock := b;
      PlusLinked(blocks, b);
      blocks := blocks + [b];
    }

    method RemoveBlock(b: FixedBlock, ghost i: nat)
      requires BlockList() && i < |blocks| && blocks[i] == b
      modifies `blocks, `firstBlock, `lastBlock, blocks`next, blocks`prev
      ensures BlockList() && blocks == Without(old(blocks), i)
    {
      hide Without, At;
      WithoutLength(blocks, i);
      AtIs(blocks, 0);
      AtIs(blocks, i - 1);
      AtIs(blocks, i + 1);
      AtIs(blocks, |blocks| - 1);
      if b == firstBlock {
        firstBlock := b.next;
      } else {
        b.prev.next := b.next;
      }
      if b == lastBlock {
        lastBlock := b.prev;
      } else {
        b.next.prev := b.prev;
      }
      WithoutLinked(blocks, i);
      blocks := Without(blocks, i);
    }

    // ---- blocks

    /** A block on a new page, not in the lists yet. */
    method NewBlock() returns (b: FixedBlock)
      requires Fits() && Pages(blocks, at, heap.used) && Lives(blocks, at, live)
      modifies `at, heap`used
      ensures fresh(b) && b.numAlloc == 0 && BlockSound(b)
      ensures b.next == null && b.prev == null && b.nextFree == null && b.prevFree == null
      ensures Pages(blocks + [b], at, heap.used) && Lives(blocks + [b], at, live)
      ensures b.page !in old(heap.used) && heap.used == old(heap.used) + {b.page}
    {
      hide Sound, Pages, Lives, End;
      ghost var at0, used := at, heap.used;
      var page := heap.Alloc();
      b := new FixedBlock(page, page * PAGE + head);
      NewSound(Base(b), itemSize, itemsPerBlock, heap.memory);
      PagesPlus(blocks, at0, used, b);
      at := at[page := b];
      LivesPlus(blocks, at0, used, live, b);
    }

    /** The new block at the end of the blocks, and first of those that are not full. */
    method LinkBlock(b: FixedBlock)
      requires BlockList() && FreeList() && b !in blocks && b.next == null && b.prev == null && b.nextFree == null && b.prevFree == null
      modifies `blocks, `free, `firstBlock, `lastBlock, `firstFree, b`prev, b`nextFree, blocks`next, free`prevFree
      ensures BlockList() && FreeList() && blocks == old(blocks) + [b] && free == [b] + old(free)
    {
      hide Linked, FreeLinked, At;
      AppendBlock(b);
      PushFree(b);
      AtIs(free, 0);
    }

    method CreateChunk() returns (b: FixedBlock)
      requires Core()
      modifies `blocks, `free, `firstBlock, `lastBlock, `firstFree, `at, `maxAlloc, heap`used, blocks`next, free`prevFree
      ensures Core() && fresh(b) && blocks == old(blocks) + [b] && free == [b] + old(free) && b.numAlloc == 0
      ensures b.page !in old(heap.used) && heap.used == old(heap.used) + {b.page} && maxAlloc == old(maxAlloc) + itemsPerBlock
    {
      hide BlockList, FreeList, AllSound, BlockSound, Pages, Lives, End;
      EndNext(0, itemsPerBlock, |blocks|);
      maxAlloc := maxAlloc + itemsPerBlock;
      b := NewBlock();
      assert b !in blocks;
      SoundPlus(blocks, b);
      LinkBlock(b);
    }

    method UnlinkBlock(b: FixedBlock, ghost i: nat, ghost j: nat)
      requires BlockList() && FreeList() && i < |blocks| && blocks[i] == b && j < |free| && free[j] == b
      modifies `blocks, `free, `firstBlock, `lastBlock, `firstFree, blocks`next, blocks`prev, free`nextFree, free`prevFree
      ensures BlockList() && FreeList() && blocks == Without(old(blocks), i) && free == Without(old(free), j)
    {
      hide Linked, FreeLinked, At, Without;
      assert NoDup(blocks) && NoDup(free) by {
        Distinct();
      }
      WithoutIs(blocks, i);
      WithoutIs(free, j);
      RemoveBlock(b, i);
      RemoveFree(b, j);
      assert forall c | c in blocks && c !in free :: c in old(blocks) && c !in old(free);
    }

    lemma Distinct()
      requires Linked(blocks) && FreeLinked(free)
      ensures NoDup(blocks) && NoDup(free)
    {
    }

    lemma SoundMinus(s: seq<FixedBlock>, i: nat)
      requires AllSound(s) && i < |s|
      ensures AllSound(Without(s, i))
    {
    }

    method FreeChunk(b: FixedBlock)
      requires Core() && b in blocks && b in free && b.numAlloc == 0
      modifies `blocks, `free, `firstBlock, `lastBlock, `firstFree, `at, `maxAlloc, heap`used, blocks`next, blocks`prev, free`nextFree, free`prevFree
      ensures Core() && heap.used == old(heap.used) - {b.page} && |blocks| == old(|blocks|) - 1 && maxAlloc == old(maxAlloc) - itemsPerBlock
      ensures (forall c | c in blocks :: c in old(blocks) && c != b) && forall c | c in old(blocks) && c != b :: c in blocks
      ensures (forall c | c in free :: c in old(free) && c != b) && forall c | c in old(free) && c != b :: c in free
    {
      hide BlockList, FreeList, AllSound, BlockSound, Pages, Lives, End, Without;
      ghost var i :| 0 <= i < |blocks| && blocks[i] == b;
      ghost var j :| 0 <= j < |free| && free[j] == b;
      Lists();
      WithoutIs(blocks, i);
      WithoutIs(free, j);
      WithoutLength(blocks, i);
      EndNext(0, itemsPerBlock, |blocks| - 1);
      maxAlloc := maxAlloc - itemsPerBlock;
      NoneLive(b);
      PagesMinus(blocks, at, heap.used, i);
      PageIs(blocks, at, heap.used, b);
      LivesMinus(blocks, at, live, i);
      SoundMinus(blocks, i);
      ghost var rest := Without(blocks, i);
      assert AllSound(rest) && Lives(rest, at - {b.page}, live);
      UnlinkBlock(b, i, j);
      assert AllSound(rest) && Lives(rest, at - {b.page}, live);
      at := at - {b.page};
      heap.Free(b.page);
    }

    lemma Lists()
      requires BlockList() && FreeList()
      ensures NoDup(blocks) && NoDup(free)
    {
    }

    lemma NoneLive(b: FixedBlock)
      requires AllSound(blocks) && b in blocks && b.numAlloc == 0
      ensures b.items.live == {}
    {
    }

    // ---- items

    /** Items lie in the page of their block. */
    lemma InPage(b: FixedBlock, x: nat, k: nat)
      requires Fits() && k <= itemsPerBlock && IsItem(x, Base(b), itemSize, k)
      ensures b.page * PAGE < x && x + itemSize <= (b.page + 1) * PAGE && x / PAGE == b.page
    {
      hide End, IsItem;
      Within(x, Base(b), itemSize, k);
      EndMono(Base(b), itemSize, k, itemsPerBlock);
      EndMono(Base(b), itemSize, itemsPerBlock, itemsPerBlock);
      EndMono(head, itemSize, itemsPerBlock, itemsPerBlock);
    }

    /** The block of an item that has been handed out; the item is on no free list. */
    lemma Owner(x: nat)
      requires Core() && x in live
      ensures x / PAGE in at && at[x / PAGE] in blocks && x in at[x / PAGE].items.live
      ensures forall c | c in blocks :: x !in c.items.frees && (c != at[x / PAGE] ==> x !in c.items.live)
    {
      hide End, IsItem, BlockList, FreeList, Says;
      var b := at[x / PAGE];
      forall c | c in blocks ensures x !in c.items.frees && (c != b ==> x !in c.items.live) {
        assert BlockSound(c) && BlockSound(b);
        if x in c.items.frees || x in c.items.live {
          InPage(c, x, c.items.carved);
        }
      }
    }

    /** A write to an item does not disturb the free lists. */
    lemma WriteKeeps(x: nat, v: nat)
      requires Core() && x in live
      ensures forall c | c in blocks ::
        Sound(c.items, Base(c), itemSize, itemsPerBlock, c.numAlloc, c.firstFree, c.nextItem, heap.memory[x := v])
    {
      hide BlockList, FreeList, Pages, LivesBy, End, Sound;
      Owner(x);
      forall c | c in blocks
        ensures Sound(c.items, Base(c), itemSize, itemsPerBlock, c.numAlloc, c.firstFree, c.nextItem, heap.memory[x := v])
      {
        assert BlockSound(c);
        WriteSound(c.items, x, v, Base(c), itemSize, itemsPerBlock, c.numAlloc, c.firstFree, c.nextItem, heap.memory);
      }
    }

    /** The item that the block gives next: the one freed last, or the first that has never been handed out. */
    function Offered(b: FixedBlock): nat
      reads b`firstFree, b`nextItem
    {
      if b.firstFree != 0 then b.firstFree else b.nextItem
    }

    /** The item part of Alloc: from the free list if there is one, else the next at the end. */
    method TakeItem(b: FixedBlock) returns (item: nat)
      requires Fits() && BlockSound(b) && b.numAlloc < itemsPerBlock
      modifies b`items, b`numAlloc, b`firstFree, b`nextItem
      ensures BlockSound(b) && b.numAlloc == old(b.numAlloc) + 1 && item !in old(b.items.live) && item == old(Offered(b))
      ensures b.items.live == old(b.items.live) + {item} && item / PAGE == b.page
    {
      hide Sound, IsItem, End;
      b.numAlloc := b.numAlloc + 1;
      if b.firstFree != 0 {
        item := b.firstFree;
        PopSound(b.items, Base(b), itemSize, itemsPerBlock, old(b.numAlloc), b.firstFree, b.nextItem, heap.memory);
        InPage(b, item, b.items.carved);
        b.firstFree := Load(heap.memory, item);
        b.items := Popped(b.items);
      } else {
        item := b.nextItem;
        CarveSound(b.items, Base(b), itemSize, itemsPerBlock, old(b.numAlloc), b.firstFree, b.nextItem, heap.memory);
        InPage(b, item, b.items.carved + 1);
        EndNext(Base(b), itemSize, b.items.carved);
        b.nextItem := if b.numAlloc != itemsPerBlock then item + itemSize else 0;
        b.items := Carved(b.items, Base(b), itemSize);
      }
    }

    twostate lemma SoundChanged(b: FixedBlock)
      requires blocks == old(blocks) && heap.memory == old(heap.memory) && BlockSound(b)
      requires old(AllSound(blocks))
      requires forall c | c in blocks && c != b :: c.items == old(c.items) && c.numAlloc == old(c.numAlloc) && c.firstFree == old(c.firstFree) && c.nextItem == old(c.nextItem)
      ensures AllSound(blocks)
    {
      hide Sound;
    }

    /** An item of a block that is not full. */
    method Take(b: FixedBlock) returns (item: nat)
      requires Core() && b in blocks && b.numAlloc < itemsPerBlock
      modifies `live, b`items, b`numAlloc, b`firstFree, b`nextItem
      ensures Core() && b.numAlloc == old(b.numAlloc) + 1 <= itemsPerBlock && item !in old(live) && live == old(live) + {item}
      ensures item == old(Offered(b))
    {
      hide BlockList, FreeList, Pages, LivesBy, BlockSound, End;
      assert BlockSound(b);
      ghost var m := LiveSets(blocks);
      PageIs(blocks, at, heap.used, b);
      item := TakeItem(b);
      NotLive(m, at, live, b, item);
      LivesAdded(m, at, live, b, item);
      assert LiveSets(blocks) == m[b := m[b] + {item}];
      SoundChanged(b);
      live := live + {item};
    }

    lemma Head()
      requires Core()
      ensures (firstFree == null <==> free == []) && (free != [] ==> firstFree == free[0]) && itemsPerBlock > 0
      ensures forall i | 0 <= i < |free| :: free[i] in blocks
    {
      hide Linked, FreeLinked, LivesBy, Pages, End, BlockSound;
    }

    /** m_maxAlloc once there is a block that is not full. */
    function Enlarged(count: nat, max: nat): nat { if count == max then max + itemsPerBlock else max }

    /** Makes sure that there is a block that is not full. A page is taken only if all blocks are full. */
    method SomeFree()
      requires Valid()
      modifies `blocks, `free, `firstBlock, `lastBlock, `firstFree, `at, `maxAlloc, heap`used, blocks`next, free`prevFree
      ensures Valid() && free != [] && fresh(set b | b in blocks && b !in old(blocks))
      ensures maxAlloc == Enlarged(|live|, old(maxAlloc)) && old(heap.used) <= heap.used && |heap.used| - |blocks| == old(|heap.used| - |blocks|)
      ensures old(free) != [] ==> free == old(free)
    {
      hide Core;
      Head();
      FullIff();
      if firstFree == null {
        var b := CreateChunk();
      }
    }

    /** Alloc. The item is not one that has been handed out, and nothing in memory changes. It is the one that the first
        block of the list offers; pages are taken when all blocks are full, before or after. */
    method Alloc() returns (item: nat)
      requires Valid()
      modifies this, blocks, heap`used
      ensures Valid() && item !in old(live) && live == old(live) + {item}
      ensures old(firstFree) != null ==> item == old(Offered(firstFree))
      ensures maxAlloc == Enlarged(|live|, Enlarged(old(|live|), old(maxAlloc)))
      ensures old(heap.used) <= heap.used && |heap.used| - |blocks| == old(|heap.used| - |blocks|)
    {
      hide Core;
      Head();
      SomeFree();
      Head();
      var b := firstFree;
      item := Take(b);
      if b.numAlloc == itemsPerBlock {
        DropFull(b);
        Head();
        SomeFree();
      } else {
        FullIff();
      }
    }

    /** A block that is full leaves the list. */
    method DropFull(b: FixedBlock)
      requires Core() && free != [] && free[0] == b
      modifies `free, `firstFree, free`nextFree, free`prevFree
      ensures Core() && b !in free && (forall c | c in free :: c in old(free)) && forall c | c in old(free) && c != b :: c in free
    {
      hide BlockList, Pages, LivesBy, AllSound, FreeLinked, At, End;
      FreeDistinct();
      assert free == [b] + free[1..];
      PopFree();
    }

    lemma FreeDistinct()
      requires FreeLinked(free)
      ensures NoDup(free)
    {
    }

    /** The item part of Free. */
    method GiveItem(b: FixedBlock, item: nat)
      requires Fits() && BlockSound(b) && item in b.items.live
      modifies b`items, b`numAlloc, b`firstFree, heap`memory
      ensures BlockSound(b) && b.numAlloc == old(b.numAlloc) - 1 && b.items.live == old(b.items.live) - {item}
      ensures heap.memory == old(heap.memory[item := b.firstFree]) && b.firstFree == item > 0
    {
      hide Sound, IsItem, End;
      PushSound(b.items, item, Base(b), itemSize, itemsPerBlock, b.numAlloc, b.firstFree, b.nextItem, heap.memory);
      heap.Store(item, b.firstFree);
      b.firstFree := item;
      b.numAlloc := b.numAlloc - 1;
      b.items := Pushed(b.items, item);
    }

    /** A client writes to an item it has. */
    method Write(item: nat, v: nat)
      requires Valid() && item in live
      modifies heap`memory
      ensures Valid() && heap.memory == old(heap.memory)[item := v]
    {
      hide BlockList, FreeList, Pages, LivesBy, End, Sound;
      WriteKeeps(item, v);
      heap.Store(item, v);
    }

    /** Takes an item back: only its own first word is written. */
    method Give(b: FixedBlock, item: nat)
      requires Core() && item in live && item / PAGE in at && b == at[item / PAGE]
      modifies `live, b`items, b`numAlloc, b`firstFree, heap`memory
      ensures Core() && b in blocks && b.numAlloc == old(b.numAlloc) - 1 && live == old(live) - {item}
      ensures heap.memory == old(heap.memory[item := b.firstFree]) && b.firstFree == item > 0 && b.page == item / PAGE
    {
      hide BlockList, FreeList, LivesBy, Sound, End;
      Owner(item);
      assert BlockSound(b);
      WriteKeeps(item, b.firstFree);
      ghost var m := LiveSets(blocks);
      GiveItem(b, item);
      LivesRemoved(m, at, live, b, item);
      assert LiveSets(blocks) == m[b := m[b] - {item}];
      live := live - {item};
    }

    /** A block is empty exactly if no item on its page is in use. */
    lemma EmptyPage(b: FixedBlock)
      requires Core() && b in blocks
      ensures b.numAlloc == 0 <==> !OnPage(live, b.page)
    {
      hide End, IsItem, BlockList, FreeList;
      assert BlockSound(b) && b in LiveSets(blocks) && LiveSets(blocks)[b] == b.items.live;
      if b.items.live != {} {
        var x :| x in b.items.live;
        InPage(b, x, b.items.carved);
        assert x in live && x / PAGE == b.page;
      }
      if OnPage(live, b.page) {
        var x :| x in live && x / PAGE == b.page;
        Owner(x);
      }
    }

    /** Free. What has been handed out otherwise keeps its contents. The page is given back exactly if no item on it is
        in use any more. */
    method Free(item: nat)
      requires Valid() && item in live
      modifies this, blocks, heap
      ensures Valid() && live == old(live) - {item}
      ensures forall x | x in live :: Load(heap.memory, x) == Load(old(heap.memory), x)
      ensures heap.used == if OnPage(live, item / PAGE) then old(heap.used) else old(heap.used) - {item / PAGE}
      ensures maxAlloc == old(maxAlloc) - if OnPage(live, item / PAGE) then 0 else itemsPerBlock
      ensures OnPage(live, item / PAGE) ==> item / PAGE in at && Offered(at[item / PAGE]) == item
      ensures OnPage(live, item / PAGE) ==>
        item / PAGE in old(at) && free == (if old(at)[item / PAGE] in old(free) then old(free) else [at[item / PAGE]] + old(free))
    {
      hide Core;
      Owner(item);
      var b := at[item / PAGE];
      var full := b.numAlloc == itemsPerBlock;
      Listed(b);
      Give(b, item);
      Head();
      EmptyPage(b);
      if full {
        ListAgain(b);
      }
      if b.numAlloc == 0 {
        Head();
        FreeChunk(b);
      }
    }

    lemma Listed(b: FixedBlock)
      requires Valid() && b in blocks
      ensures b in free <==> b.numAlloc != itemsPerBlock
    {
      hide BlockList, FreeList, Pages, LivesBy, End;
      assert BlockSound(b);
    }

    /** A block that was full goes to the head of the list. */
    method ListAgain(b: FixedBlock)
      requires Core() && b in blocks && b !in free
      modifies `free, `firstFree, b`nextFree, free`prevFree
      ensures Core() && free == [b] + old(free)
    {
      hide BlockList, Pages, LivesBy, AllSound, FreeLinked, At, End;
      PushFree(b);
      AtIs(free, 0);
    }

    // ---- what holds in every run

    /** Items handed out lie in a page of their own, behind its head, aligned to the item size, and do not overlap. */
    lemma LiveApart(x: nat, y: nat)
      requires Valid() && x in live && y in live && x < y
      ensures x + itemSize <= y
      ensures x / PAGE in heap.used && x % PAGE >= head && x % PAGE + itemSize <= PAGE && (x % PAGE - head) % itemSize == 0
    {
      hide BlockList, FreeList, LivesBy, Says, End, IsItem;
      Owner(x);
      Owner(y);
      var b, c := at[x / PAGE], at[y / PAGE];
      assert BlockSound(b) && BlockSound(c);
      InPage(b, x, b.items.carved);
      InPage(c, y, c.items.carved);
      Within(x, Base(b), itemSize, b.items.carved);
      Offset(x, b.page);
      if b == c {
        FixedItems.Apart(x, y, Base(b), itemSize, b.items.carved);
      }
    }

    lemma Offset(x: nat, page: nat)
      requires page * PAGE < x < (page + 1) * PAGE
      ensures x % PAGE == x - page * PAGE
    {
    }

    /** Every item of a block is handed out, on its free list, or has never been handed out; the block is listed as not
        full exactly if there is one of the last two kinds. */
    lemma Tally(b: FixedBlock)
      requires Valid() && b in blocks
      ensures b.numAlloc + |b.items.frees| + (itemsPerBlock - b.items.carved) == itemsPerBlock
      ensures b in free <==> |b.items.frees| > 0 || b.items.carved < itemsPerBlock
    {
      hide BlockList, FreeList, Pages, LivesBy, End, IsItem;
      assert BlockSound(b);
    }

    /** The items of the first i blocks. */
    ghost function Seen(i: nat): set<nat>
      requires i <= |blocks|
      reads `live, `blocks, `at
    {
      set x | x in live && x / PAGE in at && at[x / PAGE] in blocks[..i]
    }

    lemma SeenEnds()
      requires Valid()
      ensures Seen(0) == {} && Seen(|blocks|) == live && firstBlock == At(blocks, 0) && maxAlloc == End(0, itemsPerBlock, |blocks|)
      ensures forall i | 0 <= i < |blocks| :: blocks[i].next == At(blocks, i + 1)
    {
      hide FreeList, LivesBy, AllSound, End, At;
      assert blocks[..|blocks|] == blocks;
      forall x | x in live ensures x in Seen(|blocks|) {
        Owner(x);
      }
    }

    lemma SeenNext(i: nat)
      requires Valid() && i < |blocks|
      ensures Seen(i + 1) == Seen(i) + blocks[i].items.live && Seen(i) !! blocks[i].items.live
      ensures blocks[i].numAlloc == |blocks[i].items.live| <= itemsPerBlock
    {
      hide FreeList, End, IsItem, At, Chain;
      var b := blocks[i];
      assert BlockSound(b);
      forall x | x in b.items.live ensures x in Seen(i + 1) && x !in Seen(i) {
        assert x in LiveSets(blocks)[b];
        InPage(b, x, b.items.carved);
      }
      forall x | x in Seen(i + 1) && x !in Seen(i) ensures x in b.items.live {
        Owner(x);
      }
    }

    /** How full the first i blocks are. */
    lemma {:induction false} SeenCount(i: nat)
      requires Valid() && i <= |blocks|
      ensures |Seen(i)| <= End(0, itemsPerBlock, i)
      ensures |Seen(i)| == End(0, itemsPerBlock, i) <==> forall j | 0 <= j < i :: blocks[j].numAlloc == itemsPerBlock
    {
      hide Valid, End, Seen;
      if i == 0 {
        SeenEnds();
        EndNone(0, itemsPerBlock);
      } else {
        SeenCount(i - 1);
        SeenNext(i - 1);
        EndNext(0, itemsPerBlock, i - 1);
      }
    }

    /** All blocks are full exactly if as many items are in use as there are. */
    lemma FullIff()
      requires Valid()
      ensures free == [] <==> |live| == maxAlloc
      ensures |live| <= maxAlloc
    {
      hide Core, End, Seen;
      SeenEnds();
      SeenCount(|blocks|);
      Head();
      if free == [] {
        assert forall j | 0 <= j < |blocks| :: blocks[j].numAlloc == itemsPerBlock by {
          AllFull();
        }
      } else {
        assert free[0] in blocks && free[0].numAlloc < itemsPerBlock;
      }
    }

    lemma AllFull()
      requires Valid() && free == []
      ensures forall j | 0 <= j < |blocks| :: blocks[j].numAlloc == itemsPerBlock
    {
      hide BlockList, FreeList, Pages, LivesBy, End, IsItem;
      forall j | 0 <= j < |blocks| ensures blocks[j].numAlloc == itemsPerBlock {
        assert blocks[j] in blocks && BlockSound(blocks[j]);
      }
    }

    /** GetBytesInUse: the size of all items handed out, of which there are no more than GetMaxAlloc says. */
    method GetBytesInUse() returns (bytes: nat)
      requires Valid()
      ensures bytes == |live| * itemSize && |live| <= maxAlloc
    {
      hide Valid, End, Seen, At;
      bytes := 0;
      SeenEnds();
      var b := firstBlock;
      ghost var i: nat := 0;
      EndNone(0, itemSize);
      EndNone(0, itemsPerBlock);
      while b != null
        invariant i <= |blocks| && b == At(blocks, i) && bytes == End(0, itemSize, |Seen(i)|) && |Seen(i)| <= End(0, itemsPerBlock, i)
        decreases |blocks| - i
      {
        AtIs(blocks, i);
        SeenNext(i);
        EndSum(0, itemSize, |Seen(i)|, b.numAlloc);
        EndNext(0, itemsPerBlock, i);
        bytes := bytes + b.numAlloc * itemSize;
        b := b.next;
        i := i + 1;
      }
      AtIs(blocks, i);
      EndSum(0, itemSize, 0, |live|);
    }
  }

  lemma PerBlock(head: nat, itemSize: nat)
    requires itemSize > 0 && head + itemSize <= PAGE
    ensures var n := (PAGE - head) / itemSize; n > 0 && End(head, itemSize, n) <= PAGE < End(head, itemSize, n + 1)
  {
    var u := PAGE - head;
    var n := u / itemSize;
    assert u == n * itemSize + u % itemSize;
    EndNext(head, itemSize, n);
    if n <= 0 {
      Bits.MulMono(n, 0, itemSize);
    }
  }
}
