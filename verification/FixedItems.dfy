/** The items of one block of MMgc's fixed-size allocator: a free list that runs through the items, and the items at the
    end that have never been handed out. */
module FixedItems {
  import Bits

  /** The first word of what is at address a. */
  function Load(memory: map<nat, nat>, a: nat): nat { if a in memory then memory[a] else 0 }

  function End(base: nat, size: nat, k: nat): nat { base + k * size }

  /** One of the first k items. */
  ghost predicate IsItem(x: nat, base: nat, size: nat, k: nat) { exists j: nat :: j < k && x == End(base, size, j) }

  /** The address of element i of the free list, or null. */
  function Ptr(s: seq<nat>, i: nat): nat { if i < |s| then s[i] else 0 }

  ghost predicate NoDup<T>(s: seq<T>) { forall i, j | 0 <= i < j < |s| :: s[i] != s[j] }

  /** Each free item holds the address of the next. */
  ghost predicate Chain(frees: seq<nat>, memory: map<nat, nat>) {
    forall i: nat | i < |frees| :: Load(memory, frees[i]) == Ptr(frees, i + 1)
  }

  /** The items in a block of n: those handed out, those on the free list, and those after the first carved. */
  datatype Items = Items(carved: nat, frees: seq<nat>, live: set<nat>)

  ghost predicate Consistent(s: Items, base: nat, size: nat, n: nat) {
    && s.carved <= n && |s.live| + |s.frees| == s.carved && NoDup(s.frees)
    && (forall x | x in s.live :: IsItem(x, base, size, s.carved) && x !in s.frees)
    && (forall i: nat | i < |s.frees| :: IsItem(s.frees[i], base, size, s.carved))
  }

  /** The fields of the block say what there is. */
  ghost predicate Says(s: Items, base: nat, size: nat, n: nat, numAlloc: nat, firstFree: nat, nextItem: nat, memory: map<nat, nat>) {
    && numAlloc == |s.live| && firstFree == Ptr(s.frees, 0) && Chain(s.frees, memory)
    && nextItem == if s.carved == n then 0 else End(base, size, s.carved)
  }

  ghost predicate Sound(s: Items, base: nat, size: nat, n: nat, numAlloc: nat, firstFree: nat, nextItem: nat, memory: map<nat, nat>) {
    Consistent(s, base, size, n) && Says(s, base, size, n, numAlloc, firstFree, nextItem, memory)
  }

  lemma EndNext(base: nat, size: nat, k: nat)
    ensures End(base, size, k + 1) == End(base, size, k) + size
  {
    Bits.MulAdd(k, 1, size);
  }

  lemma EndLess(base: nat, size: nat, j: nat, k: nat)
    requires j < k
    ensures End(base, size, j) + size <= End(base, size, k) && End(base, size, j) >= base
  {
    Bits.MulMono(j + 1, k, size);
    Bits.MulAdd(j, 1, size);
  }

  /** Items lie between the base and the end, at multiples of the size. */
  lemma Within(x: nat, base: nat, size: nat, k: nat)
    requires IsItem(x, base, size, k) && size > 0
    ensures base <= x && x + size <= End(base, size, k) && (x - base) % size == 0
  {
    hide End;
    var j: nat :| j < k && x == End(base, size, j);
    EndLess(base, size, j, k);
    EndAligned(base, size, j);
  }

  lemma EndAligned(base: nat, size: nat, k: nat)
    requires size > 0
    ensures End(base, size, k) >= base && (End(base, size, k) - base) % size == 0
  {
    Bits.DivMod(k * size, size, k, 0);
  }

  /** The first item after those carved is an item, and a new one. */
  lemma FirstUncarved(base: nat, size: nat, k: nat)
    requires size > 0
    ensures IsItem(End(base, size, k), base, size, k + 1) && !IsItem(End(base, size, k), base, size, k)
  {
    hide End;
    if IsItem(End(base, size, k), base, size, k) {
      Within(End(base, size, k), base, size, k);
    }
  }

  lemma StillItem(x: nat, base: nat, size: nat, k: nat)
    requires IsItem(x, base, size, k)
    ensures IsItem(x, base, size, k + 1)
  {
    hide End;
  }

  /** Different items do not overlap. */
  lemma Apart(x: nat, y: nat, base: nat, size: nat, k: nat)
    requires IsItem(x, base, size, k) && IsItem(y, base, size, k) && x < y
    ensures x + size <= y
  {
    hide End;
    var i: nat :| i < k && x == End(base, size, i);
    var j: nat :| j < k && y == End(base, size, j);
    if j < i {
      EndLess(base, size, j, i);
    } else {
      EndLess(base, size, i, j);
    }
  }

  /** Items from the free list. */
  function Popped(s: Items): Items
    requires |s.frees| > 0
  {
    Items(s.carved, s.frees[1..], s.live + {s.frees[0]})
  }

  /** The first item that has never been handed out. */
  function Carved(s: Items, base: nat, size: nat): Items { Items(s.carved + 1, s.frees, s.live + {End(base, size, s.carved)}) }

  function Pushed(s: Items, x: nat): Items { Items(s.carved, [x] + s.frees, s.live - {x}) }

  lemma PopSound(s: Items, base: nat, size: nat, n: nat, numAlloc: nat, firstFree: nat, nextItem: nat, memory: map<nat, nat>)
    requires size > 0 && base > 0 && Sound(s, base, size, n, numAlloc, firstFree, nextItem, memory) && firstFree != 0
    ensures |s.frees| > 0 && s.frees[0] == firstFree && firstFree !in s.live && IsItem(firstFree, base, size, s.carved) && s.carved <= n
    ensures Sound(Popped(s), base, size, n, numAlloc + 1, Load(memory, firstFree), nextItem, memory)
  {
    hide IsItem, End;
    var t := Popped(s);
    assert s.frees[0] in s.frees;
    forall i: nat | i < |t.frees| ensures Load(memory, t.frees[i]) == Ptr(t.frees, i + 1) {
      assert t.frees[i] == s.frees[i + 1];
    }
    assert Load(memory, s.frees[0]) == Ptr(s.frees, 1);
    forall x | x in t.frees ensures x in s.frees && x != s.frees[0] {
    }
  }

  lemma CarveSound(s: Items, base: nat, size: nat, n: nat, numAlloc: nat, firstFree: nat, nextItem: nat, memory: map<nat, nat>)
    requires size > 0 && base > 0 && Sound(s, base, size, n, numAlloc, firstFree, nextItem, memory) && firstFree == 0 && numAlloc < n
    ensures nextItem == End(base, size, s.carved) && nextItem !in s.live && IsItem(nextItem, base, size, s.carved + 1) && s.carved + 1 == numAlloc + 1 <= n
    ensures Sound(Carved(s, base, size), base, size, n, numAlloc + 1, 0, if numAlloc + 1 == n then 0 else End(base, size, s.carved + 1), memory)
  {
    hide IsItem, End;
    EmptyList(s, base, size, firstFree);
    FirstUncarved(base, size, s.carved);
    forall x | x in s.live ensures IsItem(x, base, size, s.carved + 1) {
      StillItem(x, base, size, s.carved);
    }
  }

  /** The list is empty if its head is null. */
  lemma EmptyList(s: Items, base: nat, size: nat, firstFree: nat)
    requires size > 0 && base > 0 && firstFree == Ptr(s.frees, 0) && firstFree == 0
    requires forall i: nat | i < |s.frees| :: IsItem(s.frees[i], base, size, s.carved)
    ensures s.frees == []
  {
    if |s.frees| > 0 {
      Within(s.frees[0], base, size, s.carved);
    }
  }

  lemma PushSound(s: Items, x: nat, base: nat, size: nat, n: nat, numAlloc: nat, firstFree: nat, nextItem: nat, memory: map<nat, nat>)
    requires size > 0 && base > 0 && Sound(s, base, size, n, numAlloc, firstFree, nextItem, memory) && x in s.live
    ensures numAlloc > 0 && x > 0 && Sound(Pushed(s, x), base, size, n, numAlloc - 1, x, nextItem, memory[x := firstFree])
  {
    hide IsItem, End;
    var t := Pushed(s, x);
    var m := memory[x := firstFree];
    assert |s.live| == |t.live| + 1;
    assert x > 0 by {
      Within(x, base, size, s.carved);
    }
    forall i: nat | i < |t.frees| ensures Load(m, t.frees[i]) == Ptr(t.frees, i + 1) {
      if i > 0 {
        assert t.frees[i] == s.frees[i - 1];
        assert s.frees[i - 1] in s.frees;
        assert Load(memory, s.frees[i - 1]) == Ptr(s.frees, i);
      }
    }
    forall i, j | 0 <= i < j < |t.frees| ensures t.frees[i] != t.frees[j] {
      assert s.frees[j - 1] in s.frees;
    }
  }

  /** A write to anything but a free item changes nothing. */
  lemma WriteSound(s: Items, y: nat, v: nat, base: nat, size: nat, n: nat, numAlloc: nat, firstFree: nat, nextItem: nat, memory: map<nat, nat>)
    requires size > 0 && Sound(s, base, size, n, numAlloc, firstFree, nextItem, memory) && y !in s.frees
    ensures Sound(s, base, size, n, numAlloc, firstFree, nextItem, memory[y := v])
  {
    hide IsItem, End, Consistent;
    forall i: nat | i < |s.frees| ensures Load(memory[y := v], s.frees[i]) == Ptr(s.frees, i + 1) {
      assert s.frees[i] != y;
    }
  }

  /** A new block. */
  lemma NewSound(base: nat, size: nat, n: nat, memory: map<nat, nat>)
    requires n > 0
    ensures Sound(Items(0, [], {}), base, size, n, 0, 0, base, memory)
  {
  }

  lemma EndMono(base: nat, size: nat, j: nat, k: nat)
    requires j <= k
    ensures End(base, size, j) <= End(base, size, k) && End(base, size, j) == base + End(0, size, j)
  {
    Bits.MulMono(j, k, size);
  }

  lemma EndNone(base: nat, size: nat)
    ensures End(base, size, 0) == base
  {
  }

  lemma EndSum(base: nat, size: nat, j: nat, k: nat)
    ensures End(base, size, j + k) == End(base, size, j) + k * size
  {
    Bits.MulAdd(j, k, size);
  }
}
