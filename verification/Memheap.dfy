// rt_memheap_init, rt_memheap_alloc, rt_memheap_realloc and rt_memheap_free.  Each call is
// atomic: the semaphore that protects the pool is always taken.

module Memheap {
  import opened MemheapLinks
  import opened MemheapState

  // A block is not split for less than a header and a smallest block.
  const SLACK := HEADER + MINIALLOC

  const SIZE_LIMIT := 0xFFFF_FFC0   // the aligned request plus a header stays below 2^32

  // RT_ALIGN and the lower limit, in words.
  function Words(bytes: nat): (n: int)
    ensures n >= MINIALLOC && bytes <= 4 * n && (n == MINIALLOC || 4 * n < bytes + 4)
  {
    var n := (bytes + 3) / 4;
    if n < MINIALLOC then MINIALLOC else n
  }

  // A block of so many words is large enough for a request in bytes, and wastes less than a word, or what a
  // smallest block wastes, and what is not worth a block of its own.
  predicate Holds(words: int, bytes: nat) {
    bytes <= 4 * words <= Max(bytes + 3, 4 * MINIALLOC) + 4 * SLACK
  }

  lemma WordsHold(bytes: nat, words: int)
    requires Words(bytes) <= words <= Words(bytes) + SLACK
    ensures Holds(words, bytes)
  {
  }

  // The used block at r is as large as a request in bytes needs.
  ghost predicate Given(bl: seq<Block>, r: int, bytes: nat) {
    exists b :: b in bl && b.used && b.addr == r - HEADER && Holds(b.size, bytes)
  }

  // Byte k of the payload at r lies in word r + k / 4; count bytes at r are those that were at ptr.
  ghost predicate SameBytes(m: seq<int>, ptr: int, m': seq<int>, r: int, count: int) {
    forall k :: 0 <= k < count ==>
      0 <= ptr + k / 4 < |m| && 0 <= r + k / 4 < |m'| && m'[r + k / 4] == m[ptr + k / 4]
  }

  function Max(a: int, b: int): int { if a > b then a else b }

  function MaxOf(s: seq<int>): int
    requires s != []
  {
    var x := s[|s| - 1];
    if |s| == 1 then x else var y := MaxOf(s[..|s| - 1]); if y > x then y else x
  }

  lemma MaxOfAppend(s: seq<int>, x: int)
    requires s != []
    ensures MaxOf(s + [x]) == if MaxOf(s) > x then MaxOf(s) else x
  {
    assert (s + [x])[..|s|] == s;
  }

  lemma {:induction false} MaxOfLast(s: seq<int>)
    requires s != []
    ensures MaxOf(s) >= s[|s| - 1]
  {
  }

  class Heap {
    const mem: array<int>
    const poolSize: int
    var available: int
    var maxUsed: int

    ghost var blocks: seq<Block>
    ghost var free: seq<int>
    ghost var levels: seq<int>    // poolSize - available after init and after every change

    ghost predicate Structured()
      reads this, mem
    {
      && mem.Length == START + poolSize
      && State(mem[..], blocks, free, {})
      && Coalesced(blocks)
    }

    ghost predicate Counted()
      reads this
    {
      && available == FreeSum(blocks)
      && levels != [] && levels[|levels| - 1] == poolSize - available
      && maxUsed == MaxOf(levels)
    }

    ghost predicate Valid()
      reads this, mem
    {
      Structured() && Counted()
    }

    // ptr was handed out and not freed since.
    ghost predicate Live(ptr: int)
      reads this
    {
      exists k :: 0 <= k < |blocks| - 1 && blocks[k].used && blocks[k].addr == ptr - HEADER
    }

    constructor (bytes: nat)
      requires bytes >= 4 * 2 * HEADER
      ensures Valid() && fresh(mem)
      ensures poolSize == bytes / 4 && available == poolSize - 2 * HEADER
      ensures blocks == [Block(START, available, false), Block(START + HEADER + available, 0, true)]
    {
      var size := bytes / 4;
      var rest := size - 2 * HEADER;
      var tail := START + rest + HEADER;
      mem := new int[START + size](_ => 0);
      poolSize, available, maxUsed := size, rest, size - rest;
      blocks := [Block(START, rest, false), Block(tail, 0, true)];
      free := [START];
      levels := [size - rest];
      new;
      Format(tail);
      ghost var m := mem[..];
      assert Behind(blocks, 0);
      assert HeaderOk(m, blocks, 0) && HeaderOk(m, blocks, 1);
      assert FreeNodeOk(m, free, 0) && FreeNodeOk(m, free, 1);
      assert blocks[0].addr == START && !blocks[0].used;
      assert FreeSum(blocks) == rest by { FreeSum2(blocks[0], blocks[1]); }
    }

    // The two headers of a fresh pool and the free list that holds the first.
    method Format(tail: int)
      requires tail >= START + HEADER && tail + HEADER == mem.Length
      modifies mem
      ensures var m := mem[..];
              && Header(m, START, false, tail, tail) && Header(m, tail, true, START, START)
              && m[FREE_LIST + NEXT_FREE] == m[FREE_LIST + PREV_FREE] == START
              && m[START + NEXT_FREE] == m[START + PREV_FREE] == FREE_LIST
    {
      mem[FREE_LIST + NEXT_FREE] := FREE_LIST;
      mem[FREE_LIST + PREV_FREE] := FREE_LIST;
      mem[START + MAGIC] := FREED_MAGIC;
      mem[START + POOL] := THIS_HEAP;
      mem[START + NEXT] := tail;
      mem[START + PREV] := mem[START + NEXT];
      WritePushFree(START);
      mem[tail + MAGIC] := USED_MAGIC;
      mem[tail + POOL] := THIS_HEAP;
      mem[tail + NEXT] := START;
      mem[tail + PREV] := START;
      mem[tail + NEXT_FREE] := NULL;
      mem[tail + PREV_FREE] := NULL;
    }

    // --- the elementary relinkings, in place -----------------------------------------------------

    method WriteLinkAfter(p: int, q: int)
      requires InRange(mem[..], p) && InRange(mem[..], q) && InRange(mem[..], mem[p + NEXT])
      modifies mem
      ensures mem[..] == LinkAfter(old(mem[..]), p, q)
    {
      var next := mem[p + NEXT];
      mem[q + MAGIC] := FREED_MAGIC;
      mem[q + POOL] := THIS_HEAP;
      mem[q + PREV] := p;
      mem[q + NEXT] := next;
      mem[next + PREV] := q;
      mem[p + NEXT] := q;
    }

    method WriteUnlink(p: int, q: int)
      requires InRange(mem[..], p) && InRange(mem[..], q) && InRange(mem[..], mem[q + NEXT])
      modifies mem
      ensures mem[..] == Unlink(old(mem[..]), p, q)
    {
      var next := mem[q + NEXT];
      mem[next + PREV] := p;
      mem[p + NEXT] := next;
    }

    method WritePushFree(n: int)
      requires InRange(mem[..], n) && InRange(mem[..], FREE_LIST) && InRange(mem[..], mem[FREE_LIST + NEXT_FREE])
      requires Apart(n, FREE_LIST)
      modifies mem
      ensures mem[..] == PushFree(old(mem[..]), n)
    {
      mem[n + NEXT_FREE] := mem[FREE_LIST + NEXT_FREE];
      mem[n + PREV_FREE] := FREE_LIST;
      mem[mem[FREE_LIST + NEXT_FREE] + PREV_FREE] := n;
      mem[FREE_LIST + NEXT_FREE] := n;
    }

    method WriteDropFree(x: int)
      requires InRange(mem[..], x) && InRange(mem[..], mem[x + NEXT_FREE]) && InRange(mem[..], mem[x + PREV_FREE])
      modifies mem
      ensures mem[..] == DropFree(old(mem[..]), x)
    {
      var next, prev := mem[x + NEXT_FREE], mem[x + PREV_FREE];
      mem[next + PREV_FREE] := prev;
      mem[prev + NEXT_FREE] := next;
    }

    // Absorb the free block q into its left neighbour p: unlink q, then take it off the free list.
    method WriteAbsorb(p: int, q: int)
      requires Absorbable(mem[..], p, q)
      modifies mem
      ensures mem[..] == Absorb(old(mem[..]), p, q)
    {
      var next := mem[q + NEXT];
      mem[next + PREV] := p;
      mem[p + NEXT] := next;
      var nextFree, prevFree := mem[q + NEXT_FREE], mem[q + PREV_FREE];
      mem[nextFree + PREV_FREE] := prevFree;
      mem[prevFree + NEXT_FREE] := nextFree;
    }

    // A change of available: max_used_size follows the highest level.
    method Charge(words: int)
      requires levels != [] && maxUsed == MaxOf(levels)
      modifies this`available, this`maxUsed, this`levels
      ensures available == old(available) - words
      ensures levels == old(levels) + [poolSize - available] && maxUsed == MaxOf(levels)
    {
      available := available - words;
      if poolSize - available > maxUsed { maxUsed := poolSize - available; }
      MaxOfAppend(levels, poolSize - available);
      levels := levels + [poolSize - available];
    }

    // A level that is no higher than the last one.
    ghost method Credit()
      requires levels != [] && maxUsed == MaxOf(levels) && poolSize - available <= levels[|levels| - 1]
      modifies this`levels
      ensures levels == old(levels) + [poolSize - available] && maxUsed == MaxOf(levels)
    {
      MaxOfLast(levels);
      MaxOfAppend(levels, poolSize - available);
      levels := levels + [poolSize - available];
    }

    // --- alloc -----------------------------------------------------------------------------------

    // The search over the free list: the first block that is large enough.
    method FindFit(n: int) returns (h: int, size: int, ghost i: int)
      requires Structured() && n > 0
      ensures size >= n ==> 0 <= i < |free| && h == free[i] && InRange(mem[..], h) && size == mem[h + NEXT] - h - HEADER
      ensures size >= n ==> forall j :: 0 <= j < i ==> Small(mem[..], free[j], n)
      ensures size < n ==> forall j :: 0 <= j < |free| ==> Small(mem[..], free[j], n)
    {
      ghost var m := mem[..];
      assert FreeNodeOk(m, free, 0);
      h := mem[FREE_LIST + NEXT_FREE];
      size := 0;
      i := 0;
      while h != FREE_LIST && size < n
        invariant 0 <= i <= |free| && h == FreeNode(free, if i == |free| then 0 else i + 1)
        invariant mem[..] == m
        invariant forall j :: 0 <= j < i ==> Small(m, free[j], n)
        invariant size >= n ==> i < |free| && InRange(m, h) && size == m[h + NEXT] - h - HEADER
        decreases |free| - i, if size < n then 1 else 0
      {
        ghost var k := NodeIndex(m, h, i);
        size := mem[h + NEXT] - h - HEADER;
        if size < n {
          h := mem[h + NEXT_FREE];
          i := i + 1;
        }
      }
      if size < n { ListHeaderOnly(i, h); }
    }

    ghost method NodeIndex(m: seq<int>, h: int, i: int) returns (k: int)
      requires m == mem[..] && Structured() && 0 <= i <= |free| && h != FREE_LIST
      requires h == FreeNode(free, if i == |free| then 0 else i + 1)
      ensures i < |free| && h == free[i] && FreeNodeOk(m, free, i + 1)
      ensures 0 <= k < |blocks| - 1 && blocks[k].addr == h && !blocks[k].used
      ensures m[h + NEXT] == h + HEADER + blocks[k].size
    {
      assert free[i] in free;
      k := BlockAt(m, blocks, h);
      assert HeaderOk(m, blocks, k) && Behind(blocks, k);
    }

    lemma ListHeaderOnly(i: int, h: int)
      requires Structured() && 0 <= i <= |free| && h == FREE_LIST
      requires h == FreeNode(free, if i == |free| then 0 else i + 1)
      ensures i == |free|
    {
      if i < |free| {
        assert free[i] in free;
        var k := BlockAt(mem[..], blocks, free[i]);
        BlocksApart(mem[..], blocks, k, k);
      }
    }

    // Header h leaves the free list, and its list words are cleared.
    method TakeOff(h: int, ghost k: int, ghost i: int, ghost out: set<int>)
      requires State(mem[..], blocks, free, out) && 0 <= k < |blocks| && 0 <= i < |free|
      requires h == free[i] == blocks[k].addr
      modifies mem, this`free
      ensures State(mem[..], blocks, free, out + {h}) && free == old(free)[..i] + old(free)[i + 1..]
      ensures Kept(old(mem[..]), blocks, mem[..], blocks, {})
    {
      ghost var m0 := mem[..];
      DropState(m0, blocks, free, out, i, {});
      WriteDropFree(h);
      free := free[..i] + free[i + 1..];
      ghost var m1 := mem[..];
      ClearState(m1, blocks, free, out + {h}, k, {});
      mem[h + NEXT_FREE] := NULL;
      mem[h + PREV_FREE] := NULL;
      assert mem[..] == m1[h + NEXT_FREE := NULL][h + PREV_FREE := NULL];
      KeptTrans(m0, blocks, m1, blocks, mem[..], blocks, {});
    }

    method PutOn(n: int, ghost k: int, ghost out: set<int>)
      requires State(mem[..], blocks, free, out) && 0 <= k < |blocks|
      requires n == blocks[k].addr && !blocks[k].used && n in out
      modifies mem, this`free
      ensures State(mem[..], blocks, free, out - {n}) && free == [n] + old(free)
      ensures Kept(old(mem[..]), blocks, mem[..], blocks, {})
    {
      PushState(mem[..], blocks, free, out, k, {});
      BlocksApart(mem[..], blocks, k, k);
      WritePushFree(n);
      free := [n] + free;
    }

    method SplitBlock(h: int, n: int, ghost k: int)
      requires State(mem[..], blocks, free, {}) && 0 <= k < |blocks| - 1
      requires h == blocks[k].addr && 0 <= n && n + HEADER <= blocks[k].size
      modifies mem, this`blocks
      ensures State(mem[..], blocks, free, {h + HEADER + n}) && blocks == Split(old(blocks), k, n)
      ensures Kept(old(mem[..]), old(blocks), mem[..], blocks, {h})
      ensures SamePrefix(old(mem[..]), mem[..], h, n)
    {
      SplitState(mem[..], blocks, free, {}, k, n, {h});
      WriteLinkAfter(h, h + HEADER + n);
      blocks := Split(blocks, k, n);
      assert {} + {h + HEADER + n} == {h + HEADER + n};
    }

    method SetUsed(h: int, ghost k: int)
      requires State(mem[..], blocks, free, {h}) && 0 <= k < |blocks| - 1
      requires h == blocks[k].addr && !blocks[k].used
      modifies mem, this`blocks
      ensures State(mem[..], blocks, free, {}) && blocks == Marked(old(blocks), k, true)
      ensures Kept(old(mem[..]), old(blocks), mem[..], blocks, {h})
    {
      MarkState(mem[..], blocks, free, {h}, k, true);
      assert {h} - {h} == {};
      mem[h + MAGIC] := USED_MAGIC;
      blocks := Marked(blocks, k, true);
    }

    // Take a block that is large enough to be split.
    method Carve(h: int, n: int, ghost k: int, ghost i: int)
      requires Valid() && 0 <= k < |blocks| - 1 && 0 <= i < |free| && n >= 0
      requires h == free[i] == blocks[k].addr && !blocks[k].used && n + HEADER <= blocks[k].size
      modifies this, mem
      ensures Valid() && blocks == Marked(Split(old(blocks), k, n), k, true)
      ensures levels == old(levels) + [poolSize - available]
      ensures Kept(old(mem[..]), old(blocks), mem[..], blocks, {h})
    {
      ghost var m0, b0 := mem[..], blocks;
      SplitBlock(h, n, k);
      ghost var m1, b1 := mem[..], blocks;
      var q := h + HEADER + n;
      TakeOff(h, k, i, {q});
      ghost var m2 := mem[..];
      PutOn(q, k + 1, {q} + {h});
      assert {q} + {h} - {q} == {h};
      ghost var m3 := mem[..];
      Charge(n + HEADER);
      SetUsed(h, k);
      KeptWeaken(m1, b1, m2, b1, {h});
      KeptWeaken(m2, b1, m3, b1, {h});
      KeptTrans(m0, b0, m1, b1, m2, b1, {h});
      KeptTrans(m0, b0, m2, b1, m3, b1, {h});
      KeptTrans(m0, b0, m3, b1, mem[..], blocks, {h});
      SplitFreeSum(b0, k, n);
      MarkedFreeSum(b1, k, true);
      SplitCoalesced(b0, k, n);
    }

    // Take a block as a whole.
    method TakeWhole(h: int, ghost k: int, ghost i: int)
      requires Valid() && 0 <= k < |blocks| - 1 && 0 <= i < |free|
      requires h == free[i] == blocks[k].addr && !blocks[k].used
      modifies this, mem
      ensures Valid() && blocks == Marked(old(blocks), k, true)
      ensures levels == old(levels) + [poolSize - available]
      ensures Kept(old(mem[..]), old(blocks), mem[..], blocks, {h})
    {
      ghost var m0, b0 := mem[..], blocks;
      assert HeaderOk(m0, b0, k) && Behind(b0, k);
      Charge(mem[h + NEXT] - h - HEADER);
      TakeOff(h, k, i, {});
      assert {} + {h} == {h};
      ghost var m1 := mem[..];
      SetUsed(h, k);
      KeptWeaken(m0, b0, m1, b0, {h});
      KeptTrans(m0, b0, m1, b0, mem[..], blocks, {h});
      MarkedFreeSum(b0, k, true);
      MarkCoalesced(b0, k);
    }

    // rt_memheap_alloc
    method Alloc(bytes: nat) returns (r: int)
      requires Valid() && bytes <= SIZE_LIMIT
      modifies this, mem
      ensures Valid()
      ensures r == NULL <==> Words(bytes) >= old(available) || old(NoFit(Words(bytes)))
      ensures r == NULL ==> unchanged(this) && mem[..] == old(mem[..])
      ensures r != NULL ==> Served(old(mem[..]), old(blocks), old(free), mem[..], blocks, r, Words(bytes))
      ensures r != NULL ==> Given(blocks, r, bytes)
      ensures r != NULL ==> levels == old(levels) + [poolSize - available]
      ensures maxUsed == Max(old(maxUsed), poolSize - available)
    {
      ghost var m0, b0, f0 := mem[..], blocks, free;
      r := AllocWords(Words(bytes));
      if r != NULL { ServedBytes(m0, b0, f0, mem[..], blocks, r, bytes); }
    }

    // The alloc of n words
    method AllocWords(n: int) returns (r: int)
      requires Valid() && MINIALLOC <= n
      modifies this, mem
      ensures Valid()
      ensures r == NULL <==> n >= old(available) || old(NoFit(n))
      ensures r == NULL ==> unchanged(this) && mem[..] == old(mem[..])
      ensures r != NULL ==> Served(old(mem[..]), old(blocks), old(free), mem[..], blocks, r, n)
      ensures r != NULL ==> levels == old(levels) + [poolSize - available]
      ensures maxUsed == Max(old(maxUsed), poolSize - available)
    {
      MaxOfLast(levels);
      r := NULL;
      if n < available {
        var h, size, i := FindFit(n);
        if size >= n {
          r := h + HEADER;
          ghost var k := FoundBlock(i, size);
          FitExists(i, k, n);
          TakeFit(h, size, n, k, i);
        } else {
          NoneFits(n);
        }
      }
    }

    // The block behind entry i of the free list, of the size the search computed
    lemma FoundBlock(i: int, size: int) returns (k: int)
      requires Structured() && 0 <= i < |free| && InRange(mem[..], free[i])
      requires size == mem[free[i] + NEXT] - free[i] - HEADER
      ensures 0 <= k < |blocks| - 1 && blocks[k].addr == free[i] && !blocks[k].used && blocks[k].size == size
    {
      assert free[i] in free;
      k := BlockAt(mem[..], blocks, free[i]);
      assert HeaderOk(mem[..], blocks, k) && Behind(blocks, k);
    }

    // Take the block that was found, whole or in part.
    method TakeFit(h: int, size: int, n: int, ghost k: int, ghost i: int)
      requires Valid() && 0 <= k < |blocks| - 1 && 0 <= i < |free| && h == free[i] == blocks[k].addr
      requires !blocks[k].used && size == blocks[k].size && 0 <= n <= size
      requires forall j :: 0 <= j < i ==> Small(mem[..], free[j], n)
      modifies this, mem
      ensures Valid() && h + HEADER != NULL
      ensures Served(old(mem[..]), old(blocks), old(free), mem[..], blocks, h + HEADER, n)
      ensures levels == old(levels) + [poolSize - available] && maxUsed == Max(old(maxUsed), poolSize - available)
    {
      ghost var m0, b0 := mem[..], blocks;
      BlocksApart(m0, b0, k, k);
      if size >= n + HEADER + MINIALLOC { Carve(h, n, k, i); } else { TakeWhole(h, k, i); }
      ServedBy(m0, b0, old(free), mem[..], blocks, h + HEADER, n, k, i, k);
      MaxOfAppend(old(levels), poolSize - available);
    }

    // --- free ------------------------------------------------------------------------------------

    method SetFreed(h: int, ghost k: int)
      requires State(mem[..], blocks, free, {}) && 0 <= k < |blocks| - 1
      requires h == blocks[k].addr && blocks[k].used
      modifies mem, this`blocks
      ensures State(mem[..], blocks, free, {h}) && blocks == Marked(old(blocks), k, false)
      ensures Kept(old(mem[..]), old(blocks), mem[..], blocks, {h})
    {
      MarkState(mem[..], blocks, free, {}, k, false);
      assert {} + {h} == {h};
      mem[h + MAGIC] := FREED_MAGIC;
      blocks := Marked(blocks, k, false);
    }

    // The freed block k joins its free left neighbour, which is already listed.
    method JoinLeft(h: int, ghost k: int)
      requires State(mem[..], blocks, free, {h}) && 0 < k < |blocks| - 1
      requires h == blocks[k].addr && !blocks[k].used && !blocks[k - 1].used
      modifies mem, this`blocks
      ensures State(mem[..], blocks, free, {}) && blocks == Merged(old(blocks), k - 1)
      ensures Kept(old(mem[..]), old(blocks), mem[..], blocks, {})
    {
      MergeState(mem[..], blocks, free, {h}, k - 1, {});
      assert HeaderOk(mem[..], blocks, k);
      assert {h} - {h} == {};
      WriteUnlink(mem[h + PREV], h);
      blocks := Merged(blocks, k - 1);
    }

    // Block k absorbs its free right neighbour, which leaves the free list.
    method AbsorbRight(h: int, ghost k: int, ghost out: set<int>, ghost ex: set<int>)
      requires State(mem[..], blocks, free, out) && 0 <= k < |blocks| - 2
      requires h == blocks[k].addr && !blocks[k + 1].used && blocks[k + 1].addr !in out
      requires !blocks[k].used || h in ex
      modifies mem, this`blocks, this`free
      ensures State(mem[..], blocks, free, out) && blocks == Merged(old(blocks), k)
      ensures Kept(old(mem[..]), old(blocks), mem[..], blocks, ex)
      ensures SamePrefix(old(mem[..]), mem[..], h, old(blocks)[k].size)
    {
      ghost var m, b, f := mem[..], blocks, free;
      ghost var i := AbsorbPlace(m, b, f, out, k, ex);
      WriteAbsorb(h, mem[h + NEXT]);
      blocks, free := Merged(b, k), f[..i] + f[i + 1..];
      assert mem[..] == Absorb(m, h, b[k + 1].addr);
    }

    // Absorb a free right neighbour, and list the block unless its left neighbour was.
    method SettleRight(h: int, insert: bool, ghost j: int)
      requires State(mem[..], blocks, free, if insert then {h} else {}) && 0 <= j < |blocks| - 1
      requires h == blocks[j].addr && !blocks[j].used && CoalescedBut(blocks, j) && LeftClosed(blocks, j)
      modifies mem, this`blocks, this`free, this`available
      ensures State(mem[..], blocks, free, {}) && Coalesced(blocks)
      ensures Kept(old(mem[..]), old(blocks), mem[..], blocks, {})
      ensures available - FreeSum(blocks) == old(available) - FreeSum(old(blocks)) && available >= old(available)
    {
      ghost var m0, b0 := mem[..], blocks;
      ghost var out := if insert then {h} else {};
      assert HeaderOk(m0, b0, j) && HeaderOk(m0, b0, j + 1) && Behind(b0, j);
      if !IsUsed(mem[mem[h + NEXT] + MAGIC]) {
        available := available + HEADER;
        AbsorbRight(h, j, out, {});
        MergedFreeSum(b0, j);
        RightCloses(b0, j);
      } else {
        AllClosed(b0, j);
      }
      ghost var m1, b1 := mem[..], blocks;
      if insert {
        PutOn(h, j, out);
        assert out - {h} == {};
        KeptTrans(m0, b0, m1, b1, mem[..], b1, {});
      }
    }

    // Join a free left neighbour.
    method SettleLeft(h: int, ghost k: int) returns (g: int, insert: bool, ghost j: int)
      requires State(mem[..], blocks, free, {h}) && 0 <= k < |blocks| - 1
      requires h == blocks[k].addr && !blocks[k].used && CoalescedBut(blocks, k)
      modifies mem, this`blocks, this`available
      ensures State(mem[..], blocks, free, if insert then {g} else {}) && 0 <= j < |blocks| - 1
      ensures g == blocks[j].addr && !blocks[j].used && CoalescedBut(blocks, j) && LeftClosed(blocks, j)
      ensures Kept(old(mem[..]), old(blocks), mem[..], blocks, {})
      ensures available - FreeSum(blocks) == old(available) - FreeSum(old(blocks)) && available >= old(available)
    {
      ghost var m0, b0 := mem[..], blocks;
      assert HeaderOk(m0, b0, k) && HeaderOk(m0, b0, if k > 0 then k - 1 else |b0| - 1);
      g, insert, j := h, true, k;
      if !IsUsed(mem[mem[h + PREV] + MAGIC]) {
        available := available + HEADER;
        g := mem[h + PREV];
        JoinLeft(h, k);
        MergedFreeSum(b0, k - 1);
        LeftCloses(b0, k);
        insert := false;
        j := k - 1;
      }
    }

    method Release(h: int, ghost k: int)
      requires Structured() && 0 <= k < |blocks| - 1 && blocks[k].used && blocks[k].addr == h
      modifies mem, this`blocks, this`free, this`available
      ensures Structured()
      ensures Kept(old(mem[..]), old(blocks), mem[..], blocks, {h}) && NoneUsedAt(blocks, h)
      ensures available - FreeSum(blocks) == old(available) - FreeSum(old(blocks)) && available >= old(available)
    {
      ghost var m0, b0 := mem[..], blocks;
      assert HeaderOk(m0, b0, k) && Behind(b0, k);
      SetFreed(h, k);
      assert HeaderOk(mem[..], blocks, k);
      MarkedFreeSum(b0, k, false);
      FreedMark(m0, b0, k);
      ghost var m1, b1 := mem[..], blocks;
      available := available + (mem[h + NEXT] - h - HEADER);
      var g, insert, j := SettleLeft(h, k);
      ghost var m2, b2 := mem[..], blocks;
      SettleRight(g, insert, j);
      FreedKept(m0, b0, m1, b1, m2, b2, mem[..], blocks, h);
    }

    // rt_memheap_free
    method Free(ptr: int)
      requires Valid() && (ptr == NULL || Live(ptr))
      modifies this, mem
      ensures Valid() && maxUsed == old(maxUsed)
      ensures ptr == NULL ==> unchanged(this) && mem[..] == old(mem[..])
      ensures ptr != NULL ==>
                && Kept(old(mem[..]), old(blocks), mem[..], blocks, {ptr - HEADER})
                && NoneUsedAt(blocks, ptr - HEADER) && levels == old(levels) + [poolSize - available]
    {
      if ptr != NULL {
        var h := ptr - HEADER;
        ghost var k :| 0 <= k < |blocks| - 1 && blocks[k].used && blocks[k].addr == h;
        Release(h, k);
        Credit();
      }
    }

    // --- realloc -----------------------------------------------------------------------------------

    // rt_memcpy between two allocated blocks.
    method Copy(src: int, dst: int, len: int, ghost s: int, ghost d: int)
      requires Structured() && 0 <= s < |blocks| && 0 <= d < |blocks| && s != d
      requires blocks[s].used && src == blocks[s].addr + HEADER && 0 <= len <= blocks[s].size
      requires blocks[d].used && dst == blocks[d].addr + HEADER && len <= blocks[d].size
      modifies mem
      ensures Structured() && Kept(old(mem[..]), blocks, mem[..], blocks, {blocks[d].addr})
      ensures SameWords(old(mem[..]), src, mem[..], dst, len)
    {
      ghost var m0 := mem[..];
      BlocksApart(m0, blocks, s, d);
      PayloadInRange(m0, blocks, s);
      PayloadInRange(m0, blocks, d);
      assert blocks[s] in blocks;
      var i := 0;
      while i < len
        invariant 0 <= i <= len
        invariant State(mem[..], blocks, free, {})
        invariant Kept(m0, blocks, mem[..], blocks, {blocks[d].addr})
        invariant SameWords(m0, src, mem[..], dst, i)
      {
        CopyWord(m0, src, dst, i, s, d);
        i := i + 1;
      }
    }

    // One word of the copy.
    method CopyWord(ghost m0: seq<int>, src: int, dst: int, i: int, ghost s: int, ghost d: int)
      requires State(mem[..], blocks, free, {}) && 0 <= d < |blocks| && 0 <= s < |blocks| && blocks[s].used
      requires 0 <= i && 0 <= src + i < mem.Length && 0 <= dst + i < mem.Length
      requires blocks[s].addr != blocks[d].addr && InPayload(blocks[s], src + i) && InPayload(blocks[d], dst + i)
      requires Kept(m0, blocks, mem[..], blocks, {blocks[d].addr}) && SameWords(m0, src, mem[..], dst, i)
      modifies mem
      ensures State(mem[..], blocks, free, {})
      ensures Kept(m0, blocks, mem[..], blocks, {blocks[d].addr}) && SameWords(m0, src, mem[..], dst, i + 1)
    {
      ghost var m := mem[..];
      WriteState(m, blocks, free, {}, d, dst + i, mem[src + i]);
      mem[dst + i] := mem[src + i];
      assert blocks[s] in blocks;
      assert m[src + i] == m0[src + i];
      ghost var m' := mem[..];
      assert m' == m[dst + i := m[src + i]];
      KeptTrans(m0, blocks, m, blocks, m', blocks, {blocks[d].addr});
      OneMoreWord(m0, src, m, dst, i);
    }

    // Block k absorbs its right neighbour and is cut again at n words.
    method Recut(h: int, n: int, ghost k: int)
      requires Structured() && 0 <= k < |blocks| - 2 && blocks[k].used && h == blocks[k].addr && !blocks[k + 1].used
      requires blocks[k].size < n <= blocks[k].size + blocks[k + 1].size
      modifies mem, this`blocks, this`free
      ensures Structured() && blocks == Split(Merged(old(blocks), k), k, n)
      ensures Kept(old(mem[..]), old(blocks), mem[..], blocks, {h})
      ensures SamePrefix(old(mem[..]), mem[..], h, old(blocks)[k].size)
    {
      ghost var m0, b0 := mem[..], blocks;
      assert Behind(b0, k) && Behind(b0, k + 1);
      AbsorbRight(h, k, {}, {h});
      ghost var m1, b1 := mem[..], blocks;
      SplitBlock(h, n, k);
      ghost var m2, b2 := mem[..], blocks;
      var q := h + HEADER + n;
      PutOn(q, k + 1, {q});
      assert {q} - {q} == {};
      GrowKept(m0, b0, m1, b1, m2, b2, mem[..], k);
      GrowCoalesced(b0, k, n);
    }

    // Grow into the free right neighbour; what is left of it stays free.
    method GrowInPlace(h: int, n: int, ghost k: int)
      requires Valid() && 0 <= k < |blocks| - 2 && blocks[k].used && h == blocks[k].addr && !blocks[k + 1].used
      requires blocks[k].size < n && n + MINIALLOC < blocks[k].size + blocks[k + 1].size
      modifies this, mem
      ensures Valid() && k < |blocks| - 1 && blocks[k] == Block(h, n, true)
      ensures levels == old(levels) + [poolSize - available]
      ensures Kept(old(mem[..]), old(blocks), mem[..], blocks, {h})
      ensures SamePrefix(old(mem[..]), mem[..], h, old(blocks)[k].size)
    {
      ghost var b0 := blocks;
      assert HeaderOk(mem[..], b0, k) && Behind(b0, k);
      Charge(n - (mem[h + NEXT] - h - HEADER));
      Recut(h, n, k);
      MergedFreeSum(b0, k);
      SplitFreeSum(Merged(b0, k), k, n);
    }

    // Cut the block to n words; the rest is freed and joins a free right neighbour.
    method Shrink(h: int, n: int, ghost k: int)
      requires Valid() && 0 <= k < |blocks| - 1 && blocks[k].used && h == blocks[k].addr
      requires 0 <= n && n + HEADER + MINIALLOC < blocks[k].size
      modifies this, mem
      ensures Valid() && k < |blocks| - 1 && blocks[k] == Block(h, n, true)
      ensures levels == old(levels) + [poolSize - available]
      ensures Kept(old(mem[..]), old(blocks), mem[..], blocks, {h})
      ensures SamePrefix(old(mem[..]), mem[..], h, n)
    {
      Cut(h, n, k);
      Credit();
    }

    method Cut(h: int, n: int, ghost k: int)
      requires Structured() && 0 <= k < |blocks| - 1 && blocks[k].used && h == blocks[k].addr
      requires 0 <= n && n + HEADER + MINIALLOC < blocks[k].size
      modifies mem, this`blocks, this`free, this`available
      ensures Structured() && k < |blocks| - 1 && blocks[k] == Block(h, n, true)
      ensures available - FreeSum(blocks) == old(available) - FreeSum(old(blocks)) && available >= old(available)
      ensures Kept(old(mem[..]), old(blocks), mem[..], blocks, {h})
      ensures SamePrefix(old(mem[..]), mem[..], h, n)
    {
      ghost var m0, b0 := mem[..], blocks;
      SplitBlock(h, n, k);
      SplitFreeSum(b0, k, n);
      CutCoalesced(b0, k, n);
      ghost var m1, b1 := mem[..], blocks;
      CutRight(h + HEADER + n, k + 1);
      ghost var m2, b2 := mem[..], blocks;
      assert b2[k] == b2[..k + 1][k] == b1[k];
      ShrinkKept(m0, b0, m1, b1, m2, b2, k);
    }

    // The rest of a cut block: it takes in a free right neighbour and is listed.
    method CutRight(q: int, ghost j: int)
      requires State(mem[..], blocks, free, {q}) && 0 <= j < |blocks| - 1
      requires q == blocks[j].addr && !blocks[j].used && CoalescedBut(blocks, j) && LeftClosed(blocks, j)
      modifies mem, this`blocks, this`free, this`available
      ensures State(mem[..], blocks, free, {}) && Coalesced(blocks)
      ensures |blocks| > j + 1 && blocks[..j] == old(blocks)[..j]
      ensures Kept(old(mem[..]), old(blocks), mem[..], blocks, {})
      ensures available - FreeSum(blocks) == old(available) - FreeSum(old(blocks)) + old(blocks)[j].size
      ensures available >= old(available)
    {
      ghost var m0, b0 := mem[..], blocks;
      ghost var merged := CutAbsorb(q, j);
      ghost var m1, b1 := mem[..], blocks;
      CutSums(m0, b0, j, merged);
      PutOn(q, j, {q});
      assert {q} - {q} == {};
      assert HeaderOk(mem[..], blocks, j) && Behind(blocks, j);
      available := available + (mem[q + NEXT] - q - HEADER);
      KeptTrans(m0, b0, m1, b1, mem[..], b1, {});
    }

    method CutAbsorb(q: int, ghost j: int) returns (ghost merged: bool)
      requires State(mem[..], blocks, free, {q}) && 0 <= j < |blocks| - 1
      requires q == blocks[j].addr && !blocks[j].used
      modifies mem, this`blocks, this`free, this`available
      ensures merged == !old(blocks)[j + 1].used && (merged ==> j < |old(blocks)| - 2)
      ensures State(mem[..], blocks, free, {q}) && Kept(old(mem[..]), old(blocks), mem[..], blocks, {})
      ensures blocks == if merged then Merged(old(blocks), j) else old(blocks)
      ensures available == old(available) - if merged then old(blocks)[j + 1].size else 0
    {
      ghost var m0, b0 := mem[..], blocks;
      assert HeaderOk(m0, b0, j) && HeaderOk(m0, b0, j + 1) && Behind(b0, j);
      var next := mem[q + NEXT];
      merged := false;
      if !IsUsed(mem[next + MAGIC]) {
        assert HeaderOk(m0, b0, j + 2) && Behind(b0, j + 1);
        available := available - (mem[next + NEXT] - next - HEADER);
        AbsorbRight(q, j, {q}, {});
        merged := true;
      }
    }

    // Allocate elsewhere, copy, and free.
    method Move(ptr: int, n: int, ghost k: int) returns (r: int)
      requires Valid() && 0 <= k < |blocks| - 1 && blocks[k].used && blocks[k].addr == ptr - HEADER
      requires MINIALLOC <= n && 4 * n <= SIZE_LIMIT && blocks[k].size < n
      modifies this, mem
      ensures Valid() && old(levels) <= levels && (r == NULL <==> n >= old(available) || old(NoFit(n)))
      ensures r == NULL ==> unchanged(this) && mem[..] == old(mem[..])
      ensures r != NULL ==> Resized(old(mem[..]), old(blocks), mem[..], blocks, ptr, r, old(blocks)[k].size, n)
    {
      ghost var m0, b0, f0 := mem[..], blocks, free;
      assert HeaderOk(m0, b0, k) && Behind(b0, k);
      var oldSize := mem[ptr - HEADER + NEXT] - ptr;
      r := Alloc(4 * n);
      if r != NULL {
        ghost var m1, b1 := mem[..], blocks;
        ghost var d, s := MovedPlaces(m0, b0, f0, m1, b1, k, r, n);
        ghost var c := b1[d];
        LiveNotTail(m1, b1, s);
        CopyAndFree(ptr, r, oldSize, s, d);
        MovedResult(m0, b0, m1, b1, mem[..], blocks, ptr, r, b0[k], c, n);
      }
    }

    method CopyAndFree(ptr: int, r: int, len: int, ghost s: int, ghost d: int)
      requires Valid() && 0 <= s < |blocks| - 1 && 0 <= d < |blocks| && s != d && 0 <= len
      requires blocks[s].used && ptr == blocks[s].addr + HEADER && len == blocks[s].size
      requires blocks[d].used && r == blocks[d].addr + HEADER && len <= blocks[d].size
      modifies this, mem
      ensures Valid() && NoneUsedAt(blocks, ptr - HEADER) && old(levels) <= levels
      ensures Kept(old(mem[..]), old(blocks), mem[..], blocks, {ptr - HEADER, r - HEADER})
      ensures old(blocks)[d] in blocks && SameWords(old(mem[..]), ptr, mem[..], r, len)
    {
      ghost var m0, b0 := mem[..], blocks;
      BlocksApart(m0, b0, s, d);
      Copy(ptr, r, len, s, d);
      ghost var m1 := mem[..];
      Free(ptr);
      assert b0[d] in b0;
      CopiedKept(m0, b0, m1, mem[..], blocks, ptr, r, b0[d], len);
    }

    // The part of rt_memheap_realloc for a larger size.
    method Grow(ptr: int, n: int, ghost k: int) returns (r: int)
      requires Valid() && 0 <= k < |blocks| - 1 && blocks[k].used && blocks[k].addr == ptr - HEADER && ptr != NULL
      requires MINIALLOC <= n && 4 * n <= SIZE_LIMIT && blocks[k].size < n
      modifies this, mem
      ensures Valid() && old(levels) <= levels && (r == NULL <==> old(CannotGrow(k, n)))
      ensures r == NULL ==> unchanged(this) && mem[..] == old(mem[..])
      ensures r != NULL ==> Resized(old(mem[..]), old(blocks), mem[..], blocks, ptr, r, old(blocks)[k].size, n)
    {
      var h := ptr - HEADER;
      ghost var m0, b0 := mem[..], blocks;
      assert HeaderOk(m0, b0, k) && HeaderOk(m0, b0, k + 1) && Behind(b0, k);
      var next := mem[h + NEXT];
      if !IsUsed(mem[next + MAGIC]) {
        assert HeaderOk(m0, b0, k + 2) && Behind(b0, k + 1);
        var nextSize := mem[next + NEXT] - next - HEADER;
        if nextSize + (next - h - HEADER) > n + MINIALLOC {
          GrowInPlace(h, n, k);
          ResizedInPlace(m0, b0, mem[..], blocks, ptr, k, n);
          return ptr;
        }
      }
      r := Move(ptr, n, k);
    }

    // rt_memheap_realloc
    method Realloc(ptr: int, bytes: nat) returns (r: int)
      requires Valid() && bytes <= SIZE_LIMIT && (ptr == NULL || Live(ptr))
      modifies this, mem
      ensures Valid() && old(levels) <= levels
      ensures bytes == 0 ==> r == NULL
      ensures bytes == 0 && ptr != NULL ==>
                && Kept(old(mem[..]), old(blocks), mem[..], blocks, {ptr - HEADER})
                && NoneUsedAt(blocks, ptr - HEADER)
      ensures bytes > 0 && ptr == NULL && r != NULL ==>
                Served(old(mem[..]), old(blocks), old(free), mem[..], blocks, r, Words(bytes))
      ensures bytes > 0 && ptr == NULL ==> (r == NULL <==> Words(bytes) >= old(available) || old(NoFit(Words(bytes))))
      ensures r == NULL && (bytes > 0 || ptr == NULL) ==> unchanged(this) && mem[..] == old(mem[..])
      ensures bytes > 0 && ptr != NULL && r != NULL ==>
                exists b :: b in old(blocks) && b.used && b.addr == ptr - HEADER &&
                            Resized(old(mem[..]), old(blocks), mem[..], blocks, ptr, r, b.size, Words(bytes)) &&
                            SameBytes(old(mem[..]), ptr, mem[..], r, Least(4 * b.size, bytes))
      ensures bytes > 0 && r != NULL ==> Given(blocks, r, bytes)
      ensures bytes > 0 && ptr != NULL ==> (r == NULL <==> old(Stuck(ptr - HEADER, Words(bytes))))
    {
      if bytes == 0 {
        Free(ptr);
        return NULL;
      }
      var n := Words(bytes);
      if ptr == NULL {
        ghost var m0, b0, f0 := mem[..], blocks, free;
        r := Alloc(4 * n);
        if r != NULL { ServedBytes(m0, b0, f0, mem[..], blocks, r, bytes); }
        return;
      }
      ghost var k :| 0 <= k < |blocks| - 1 && blocks[k].used && blocks[k].addr == ptr - HEADER;
      assert blocks[k] in blocks;
      StuckAt(k, n);
      ghost var m0, b0 := mem[..], blocks;
      r := Resize(ptr, n, k);
      if r != NULL { ResizedBytes(m0, b0, mem[..], blocks, ptr, r, b0[k].size, bytes); }
    }

    method Resize(ptr: int, n: int, ghost k: int) returns (r: int)
      requires Valid() && 0 <= k < |blocks| - 1 && blocks[k].used && blocks[k].addr == ptr - HEADER && ptr != NULL
      requires MINIALLOC <= n && 4 * n <= SIZE_LIMIT
      modifies this, mem
      ensures Valid() && old(levels) <= levels && (r == NULL <==> old(blocks[k].size < n && CannotGrow(k, n)))
      ensures r == NULL ==> unchanged(this) && mem[..] == old(mem[..])
      ensures r != NULL ==> Resized(old(mem[..]), old(blocks), mem[..], blocks, ptr, r, old(blocks)[k].size, n)
    {
      var h := ptr - HEADER;
      ghost var m0, b0 := mem[..], blocks;
      assert HeaderOk(m0, b0, k) && HeaderOk(m0, b0, k + 1) && Behind(b0, k);
      var oldSize := mem[h + NEXT] - h - HEADER;
      if n > oldSize {
        r := Grow(ptr, n, k);
        return;
      }
      if n + HEADER + MINIALLOC < oldSize { Shrink(h, n, k); }
      ResizedInPlace(m0, b0, mem[..], blocks, ptr, k, n);
      r := ptr;
    }

    // The block k and its free right neighbour together do not have n words and more than a smallest
    // block to spare, and no other free block will do.
    ghost predicate CannotGrow(k: int, n: int)
      requires 0 <= k < |blocks| - 1
      reads this
    {
      (blocks[k + 1].used || blocks[k].size + blocks[k + 1].size <= n + MINIALLOC) && (n >= available || NoFit(n))
    }

    // The block at h is smaller than n words and cannot grow.
    ghost predicate Stuck(h: int, n: int)
      reads this
    {
      exists k :: 0 <= k < |blocks| - 1 && blocks[k].used && blocks[k].addr == h && blocks[k].size < n
                  && CannotGrow(k, n)
    }

    lemma StuckAt(k: int, n: int)
      requires Structured() && 0 <= k < |blocks| - 1 && blocks[k].used
      ensures Stuck(blocks[k].addr, n) <==> blocks[k].size < n && CannotGrow(k, n)
    {
      if Stuck(blocks[k].addr, n) {
        var j :| 0 <= j < |blocks| - 1 && blocks[j].used && blocks[j].addr == blocks[k].addr && blocks[j].size < n
                 && CannotGrow(j, n);
        BlocksApart(mem[..], blocks, j, k);
      }
    }

    // No free block has n words.
    ghost predicate NoFit(n: int)
      reads this
    {
      forall b :: b in blocks && !b.used ==> b.size < n
    }

    lemma FitExists(i: int, k: int, n: int)
      requires 0 <= k < |blocks| && !blocks[k].used && blocks[k].size >= n
      ensures !NoFit(n)
    {
      assert blocks[k] in blocks;
    }

    lemma NoneFits(n: int)
      requires Structured() && forall j :: 0 <= j < |free| ==> Small(mem[..], free[j], n)
      ensures NoFit(n)
    {
      forall b | b in blocks && !b.used ensures b.size < n {
        var k :| 0 <= k < |blocks| && blocks[k] == b;
        assert IsFree(blocks, b.addr);
        var j :| 0 <= j < |free| && free[j] == b.addr;
        assert Small(mem[..], free[j], n);
        assert HeaderOk(mem[..], blocks, k) && Behind(blocks, k);
      }
    }
  }

  // The entry of the free list that goes when block k absorbs the free block behind it
  lemma AbsorbPlace(m: seq<int>, bl: seq<Block>, fl: seq<int>, out: set<int>, k: int, ex: set<int>) returns (i: int)
    requires State(m, bl, fl, out) && 0 <= k < |bl| - 2
    requires !bl[k + 1].used && bl[k + 1].addr !in out && (!bl[k].used || bl[k].addr in ex)
    ensures 0 <= i < |fl| && InRange(m, bl[k].addr) && m[bl[k].addr + NEXT] == bl[k + 1].addr
    ensures Absorbable(m, bl[k].addr, bl[k + 1].addr)
    ensures var m' := Absorb(m, bl[k].addr, bl[k + 1].addr);
      && State(m', Merged(bl, k), fl[..i] + fl[i + 1..], out) && Kept(m, bl, m', Merged(bl, k), ex)
      && SamePrefix(m, m', bl[k].addr, bl[k].size)
  {
    assert IsFree(bl, bl[k + 1].addr);
    i :| 0 <= i < |fl| && fl[i] == bl[k + 1].addr;
    AbsorbState(m, bl, fl, out, k, i, ex);
    assert HeaderOk(m, bl, k);
  }

  // RT_MEMHEAP_IS_USED
  predicate IsUsed(magic: int) { magic % 2 == 1 }

  ghost predicate NoneUsedAt(bl: seq<Block>, h: int) { forall b :: b in bl && b.used ==> b.addr != h }

  // No two neighbours are both free, but for the pairs of block j.
  ghost predicate CoalescedBut(bl: seq<Block>, j: int) {
    forall i {:trigger bl[i]} :: 0 <= i < |bl| - 1 && i != j - 1 && i != j ==> bl[i].used || bl[i + 1].used
  }

  ghost predicate LeftClosed(bl: seq<Block>, j: int)
    requires 0 <= j < |bl|
  {
    j == 0 || bl[j - 1].used
  }

  lemma FreedMark(m: seq<int>, bl: seq<Block>, k: int)
    requires Tiled(bl, |m|) && Coalesced(bl) && 0 <= k < |bl| - 1
    ensures CoalescedBut(Marked(bl, k, false), k) && NoneUsedAt(Marked(bl, k, false), bl[k].addr)
  {
    var r := Marked(bl, k, false);
    forall i {:trigger r[i]} | 0 <= i < |r| - 1 && i != k - 1 && i != k ensures r[i].used || r[i + 1].used {
      assert bl[i].used || bl[i + 1].used;
    }
    forall b | b in r && b.used ensures b.addr != bl[k].addr {
      var i :| 0 <= i < |r| && r[i] == b;
      BlocksApart(m, bl, i, k);
    }
  }

  lemma LeftCloses(bl: seq<Block>, k: int)
    requires CoalescedBut(bl, k) && 0 < k < |bl| - 1 && !bl[k - 1].used
    ensures CoalescedBut(Merged(bl, k - 1), k - 1) && LeftClosed(Merged(bl, k - 1), k - 1)
  {
    var r := Merged(bl, k - 1);
    if k > 1 { assert bl[k - 2].used; }
    forall i {:trigger r[i]} | 0 <= i < |r| - 1 && i != k - 2 && i != k - 1 ensures r[i].used || r[i + 1].used {
      if i < k - 2 {
        assert bl[i].used || bl[i + 1].used;
      } else {
        assert bl[i + 1].used || bl[i + 2].used;
        assert r[i + 1] == bl[i + 2];
      }
    }
  }

  lemma RightCloses(bl: seq<Block>, j: int)
    requires CoalescedBut(bl, j) && 0 <= j < |bl| - 2 && LeftClosed(bl, j) && !bl[j + 1].used
    ensures Coalesced(Merged(bl, j))
  {
    var r := Merged(bl, j);
    assert bl[j + 1].used || bl[j + 2].used;
    forall i {:trigger r[i]} | 0 <= i < |r| - 1 ensures r[i].used || r[i + 1].used {
      if i < j - 1 {
        assert bl[i].used || bl[i + 1].used;
      } else if i > j {
        assert bl[i + 1].used || bl[i + 2].used;
        assert r[i + 1] == bl[i + 2];
      } else if i == j {
        assert r[i + 1] == bl[j + 2];
      }
    }
  }

  lemma AllClosed(bl: seq<Block>, j: int)
    requires CoalescedBut(bl, j) && 0 <= j < |bl| - 1 && LeftClosed(bl, j) && bl[j + 1].used
    ensures Coalesced(bl)
  {
  }

  lemma FreedKept(m0: seq<int>, b0: seq<Block>, m1: seq<int>, b1: seq<Block>, m2: seq<int>, b2: seq<Block>,
                  m3: seq<int>, b3: seq<Block>, h: int)
    requires Kept(m0, b0, m1, b1, {h}) && NoneUsedAt(b1, h)
    requires Kept(m1, b1, m2, b2, {}) && Kept(m2, b2, m3, b3, {})
    ensures Kept(m0, b0, m3, b3, {h}) && NoneUsedAt(b3, h)
  {
    KeptWeaken(m1, b1, m2, b2, {h});
    KeptTrans(m0, b0, m1, b1, m2, b2, {h});
    KeptWeaken(m2, b2, m3, b3, {h});
    KeptTrans(m0, b0, m2, b2, m3, b3, {h});
  }

  lemma KeptWeaken(m: seq<int>, bl: seq<Block>, m': seq<int>, bl': seq<Block>, ex: set<int>)
    requires Kept(m, bl, m', bl', {})
    ensures Kept(m, bl, m', bl', ex)
  {
  }

  lemma KeptUnder(m: seq<int>, bl: seq<Block>, m': seq<int>, bl': seq<Block>, ex: set<int>, ex': set<int>)
    requires Kept(m, bl, m', bl', ex) && ex <= ex'
    ensures Kept(m, bl, m', bl', ex')
  {
  }

  // The len words at src in m are the len words at dst in m'.
  ghost predicate SameWords(m: seq<int>, src: int, m': seq<int>, dst: int, len: int) {
    && 0 <= src && src + len <= |m| && 0 <= dst && dst + len <= |m'|
    && 0 <= len && m'[dst..dst + len] == m[src..src + len]
  }

  // The block at ptr, of size words, now is the block at r, with n words or more; its first
  // words are those it had, and every other allocated block is as before.
  ghost predicate Resized(m: seq<int>, bl: seq<Block>, m': seq<int>, bl': seq<Block>, ptr: int, r: int, size: int,
                          n: int) {
    && (exists b :: b in bl' && b.used && b.addr == r - HEADER && n <= b.size <= n + SLACK)
    && (r != ptr ==> NoneUsedAt(bl', ptr - HEADER))
    && SameWords(m, ptr, m', r, if size < n then size else n)
    && Kept(m, bl, m', bl', {ptr - HEADER, r - HEADER})
  }

  function Least(a: int, b: int): int { if a < b then a else b }

  lemma ResizedBytes(m: seq<int>, bl: seq<Block>, m': seq<int>, bl': seq<Block>, ptr: int, r: int, size: int,
                     bytes: nat)
    requires Resized(m, bl, m', bl', ptr, r, size, Words(bytes))
    ensures Given(bl', r, bytes) && SameBytes(m, ptr, m', r, Least(4 * size, bytes))
  {
    var n := Words(bytes);
    var b :| b in bl' && b.used && b.addr == r - HEADER && n <= b.size <= n + SLACK;
    WordsHold(bytes, b.size);
    WordsHold(bytes, n);
    var len := if size < n then size else n;
    forall k | 0 <= k < Least(4 * size, bytes)
      ensures 0 <= ptr + k / 4 < |m| && 0 <= r + k / 4 < |m'| && m'[r + k / 4] == m[ptr + k / 4]
    {
      var w := k / 4;
      assert w < len && m'[r..r + len][w] == m'[r + w] && m[ptr..ptr + len][w] == m[ptr + w];
    }
  }

  lemma ServedBytes(m: seq<int>, bl: seq<Block>, fl: seq<int>, m': seq<int>, bl': seq<Block>, r: int, bytes: nat)
    requires Served(m, bl, fl, m', bl', r, Words(bytes))
    ensures Given(bl', r, bytes)
  {
    var n := Words(bytes);
    var b :| b in bl' && b.used && b.addr == r - HEADER && n <= b.size < n + HEADER + MINIALLOC;
    WordsHold(bytes, b.size);
  }

  lemma OneMoreWord(m0: seq<int>, src: int, m: seq<int>, dst: int, i: int)
    requires SameWords(m0, src, m, dst, i) && src + i < |m0| && dst + i < |m| && src + i < |m|
    requires m[src + i] == m0[src + i]
    ensures SameWords(m0, src, m[dst + i := m[src + i]], dst, i + 1)
  {
    var m' := m[dst + i := m[src + i]];
    assert m'[dst..dst + i + 1] == m[dst..dst + i] + [m0[src + i]];
    assert m0[src..src + i + 1] == m0[src..src + i] + [m0[src + i]];
  }

  lemma PayloadInRange(m: seq<int>, bl: seq<Block>, k: int)
    requires Tiled(bl, |m|) && 0 <= k < |bl|
    ensures 0 <= bl[k].addr + HEADER && bl[k].addr + HEADER + bl[k].size <= |m| && bl[k].size >= 0
  {
    OrderFrom(bl, |m|, k);
    if k < |bl| - 1 { Order(bl, |m|, k, k + 1); }
  }

  lemma GrowKept(m0: seq<int>, b0: seq<Block>, m1: seq<int>, b1: seq<Block>, m2: seq<int>, b2: seq<Block>,
                 m3: seq<int>, k: int)
    requires 0 <= k < |b0| && k < |b2| && b2[k].used && b2[k].addr == b0[k].addr && b0[k].size <= b2[k].size
    requires Kept(m0, b0, m1, b1, {b0[k].addr}) && Kept(m1, b1, m2, b2, {b0[k].addr}) && Kept(m2, b2, m3, b2, {})
    requires SamePrefix(m0, m1, b0[k].addr, b0[k].size) && SamePrefix(m1, m2, b0[k].addr, b2[k].size)
    ensures Kept(m0, b0, m3, b2, {b0[k].addr}) && SamePrefix(m0, m3, b0[k].addr, b0[k].size)
  {
    var h := b0[k].addr;
    KeptWeaken(m2, b2, m3, b2, {h});
    KeptTrans(m0, b0, m1, b1, m2, b2, {h});
    KeptTrans(m0, b0, m2, b2, m3, b2, {h});
    assert b2[k] in b2;
    forall w | h + HEADER <= w < h + HEADER + b0[k].size && 0 <= w < |m0| ensures m3[w] == m0[w] {
      assert InPayload(b2[k], w);
    }
  }

  lemma ShrinkKept(m0: seq<int>, b0: seq<Block>, m1: seq<int>, b1: seq<Block>, m2: seq<int>, b2: seq<Block>, k: int)
    requires 0 <= k < |b1| && b1[k].used && Kept(m0, b0, m1, b1, {b1[k].addr}) && Kept(m1, b1, m2, b2, {})
    requires SamePrefix(m0, m1, b1[k].addr, b1[k].size)
    ensures Kept(m0, b0, m2, b2, {b1[k].addr}) && SamePrefix(m0, m2, b1[k].addr, b1[k].size)
  {
    var b := b1[k];
    KeptWeaken(m1, b1, m2, b2, {b.addr});
    KeptTrans(m0, b0, m1, b1, m2, b2, {b.addr});
    assert b in b1;
    forall w | b.addr + HEADER <= w < b.addr + HEADER + b.size && 0 <= w < |m0| ensures m2[w] == m0[w] {
      assert InPayload(b, w);
    }
  }

  lemma GrowCoalesced(bl: seq<Block>, k: int, n: int)
    requires Coalesced(bl) && 0 <= k < |bl| - 2 && bl[k].used && !bl[k + 1].used
    ensures Coalesced(Split(Merged(bl, k), k, n))
  {
    var g := Merged(bl, k);
    var r := Split(g, k, n);
    assert bl[k + 2].used by { assert bl[k + 1].used || bl[k + 2].used; }
    forall i {:trigger r[i]} | 0 <= i < |r| - 1 ensures r[i].used || r[i + 1].used {
      if i < k - 1 {
        assert r[i] == g[i] == bl[i] && r[i + 1] == g[i + 1] == bl[i + 1];
        assert bl[i].used || bl[i + 1].used;
      } else if i > k {
        assert r[i + 1] == g[i] == bl[i + 1];
        if i > k + 1 {
          assert r[i] == g[i - 1] == bl[i];
          assert bl[i].used || bl[i + 1].used;
        }
      }
    }
  }

  lemma CutCoalesced(bl: seq<Block>, k: int, n: int)
    requires Coalesced(bl) && 0 <= k < |bl| - 1 && bl[k].used
    ensures CoalescedBut(Split(bl, k, n), k + 1) && LeftClosed(Split(bl, k, n), k + 1)
  {
    var r := Split(bl, k, n);
    forall i {:trigger r[i]} | 0 <= i < |r| - 1 && i != k && i != k + 1 ensures r[i].used || r[i + 1].used {
      if i < k - 1 {
        assert bl[i].used || bl[i + 1].used;
      } else if i > k + 1 {
        assert bl[i - 1].used || bl[i].used;
        assert r[i + 1] == bl[i];
      }
    }
  }

  lemma CutSums(m: seq<int>, bl: seq<Block>, j: int, merged: bool)
    requires Tiled(bl, |m|) && CoalescedBut(bl, j) && 0 <= j < |bl| - 1 && LeftClosed(bl, j) && !bl[j].used
    requires merged == !bl[j + 1].used && (merged ==> j < |bl| - 2)
    ensures var r := if merged then Merged(bl, j) else bl;
            && Coalesced(r) && |r| > j + 1 && r[..j] == bl[..j] && r[j].addr == bl[j].addr && !r[j].used
            && r[j].size - FreeSum(r) == bl[j].size - FreeSum(bl) + (if merged then bl[j + 1].size else 0)
            && r[j].size >= (if merged then bl[j + 1].size else 0)
  {
    assert Behind(bl, j);
    if merged {
      MergedFreeSum(bl, j);
      RightCloses(bl, j);
    } else {
      AllClosed(bl, j);
    }
  }

  lemma LiveNotTail(m: seq<int>, bl: seq<Block>, s: int)
    requires Tiled(bl, |m|) && 0 <= s < |bl| && bl[s].size + bl[s].addr + HEADER < |m|
    ensures s < |bl| - 1
  {
  }

  // After the allocation the old block and the new one are different blocks of the list.
  lemma MovedPlaces(m0: seq<int>, b0: seq<Block>, f0: seq<int>, m1: seq<int>, b1: seq<Block>, k: int, r: int, n: int)
    returns (d: int, s: int)
    requires State(m0, b0, f0, {}) && 0 <= k < |b0| - 1 && b0[k].used && Served(m0, b0, f0, m1, b1, r, n)
    requires Tiled(b1, |m1|)
    ensures 0 <= d < |b1| && b1[d].used && b1[d].addr == r - HEADER && n <= b1[d].size < n + SLACK
    ensures 0 <= s < |b1| && b1[s] == b0[k] && s != d && b0[k].addr != r - HEADER
    ensures b0[k].addr + HEADER + b0[k].size < |m1|
  {
    var i :| 0 <= i < |f0| && f0[i] == r - HEADER;
    assert f0[i] in f0;
    var j := BlockAt(m0, b0, r - HEADER);
    BlocksApart(m0, b0, j, k);
    var b :| b in b1 && b.used && b.addr == r - HEADER && n <= b.size < n + HEADER + MINIALLOC;
    d :| 0 <= d < |b1| && b1[d] == b;
    assert b0[k] in b0;
    s :| 0 <= s < |b1| && b1[s] == b0[k];
    Order(b0, |m0|, k, k + 1);
    PayloadInRange(m0, b0, k + 1);
  }

  lemma CopiedKept(m0: seq<int>, b0: seq<Block>, m1: seq<int>, m2: seq<int>, b2: seq<Block>, ptr: int, r: int,
                   c: Block, len: int)
    requires Kept(m0, b0, m1, b0, {r - HEADER}) && Kept(m1, b0, m2, b2, {ptr - HEADER})
    requires c in b0 && c.used && c.addr == r - HEADER && c.addr != ptr - HEADER && len <= c.size
    requires SameWords(m0, ptr, m1, r, len)
    ensures Kept(m0, b0, m2, b2, {ptr - HEADER, r - HEADER}) && c in b2 && SameWords(m0, ptr, m2, r, len)
  {
    var ex := {ptr - HEADER, r - HEADER};
    KeptUnder(m0, b0, m1, b0, {r - HEADER}, ex);
    KeptUnder(m1, b0, m2, b2, {ptr - HEADER}, ex);
    KeptTrans(m0, b0, m1, b0, m2, b2, ex);
    forall w | r <= w < r + len ensures m2[w] == m1[w] { assert InPayload(c, w); }
    assert m2[r..r + len] == m1[r..r + len];
  }

  lemma MovedResult(m0: seq<int>, b0: seq<Block>, m1: seq<int>, b1: seq<Block>, m3: seq<int>, b3: seq<Block>,
                    ptr: int, r: int, b: Block, c: Block, n: int)
    requires b in b0 && b.used && b.addr == ptr - HEADER && 0 <= b.size < n && r != ptr
    requires c in b3 && c.used && c.addr == r - HEADER && n <= c.size <= n + SLACK
    requires Kept(m0, b0, m1, b1, {r - HEADER}) && Kept(m1, b1, m3, b3, {ptr - HEADER, r - HEADER})
    requires SameWords(m1, ptr, m3, r, b.size) && NoneUsedAt(b3, ptr - HEADER)
    ensures Resized(m0, b0, m3, b3, ptr, r, b.size, n)
  {
    var ex := {ptr - HEADER, r - HEADER};
    KeptUnder(m0, b0, m1, b1, {r - HEADER}, ex);
    KeptTrans(m0, b0, m1, b1, m3, b3, ex);
    forall w | ptr <= w < ptr + b.size ensures m1[w] == m0[w] { assert InPayload(b, w); }
    assert m1[ptr..ptr + b.size] == m0[ptr..ptr + b.size];
  }

  lemma ResizedInPlace(m: seq<int>, bl: seq<Block>, m': seq<int>, bl': seq<Block>, ptr: int, k: int, n: int)
    requires Tiled(bl, |m|) && 0 <= k < |bl| && bl[k].addr == ptr - HEADER
    requires 0 <= k < |bl'| && bl'[k].used && bl'[k].addr == ptr - HEADER && 0 <= n <= bl'[k].size <= n + SLACK
    requires Kept(m, bl, m', bl', {ptr - HEADER})
    requires SamePrefix(m, m', ptr - HEADER, if bl[k].size < n then bl[k].size else n)
    ensures Resized(m, bl, m', bl', ptr, ptr, bl[k].size, n)
  {
    PayloadInRange(m, bl, k);
    assert bl'[k] in bl';
    assert {ptr - HEADER} == {ptr - HEADER, ptr - HEADER};
  }

  lemma SplitCoalesced(bl: seq<Block>, k: int, n: int)
    requires Coalesced(bl) && 0 <= k < |bl| - 1 && !bl[k].used
    ensures Coalesced(Marked(Split(bl, k, n), k, true))
  {
    var s := Split(bl, k, n);
    var r := Marked(s, k, true);
    forall i {:trigger r[i]} | 0 <= i < |r| - 1 ensures r[i].used || r[i + 1].used {
      if i < k - 1 {
        assert bl[i].used || bl[i + 1].used;
      } else if i == k + 1 {
        assert bl[k].used || bl[k + 1].used;
        assert r[i + 1] == s[i + 1] == bl[k + 1];
      } else if i > k + 1 {
        assert bl[i - 1].used || bl[i].used;
        assert r[i + 1] == s[i + 1] == bl[i];
      }
    }
  }

  lemma MarkCoalesced(bl: seq<Block>, k: int)
    requires Coalesced(bl) && 0 <= k < |bl| - 1
    ensures Coalesced(Marked(bl, k, true))
  {
    var r := Marked(bl, k, true);
    forall i {:trigger r[i]} | 0 <= i < |r| - 1 ensures r[i].used || r[i + 1].used {
      assert bl[i].used || bl[i + 1].used;
    }
  }

  ghost predicate Small(m: seq<int>, x: int, n: int) { InRange(m, x) && m[x + NEXT] - x - HEADER < n }

  // r is the payload of the first block on the free list with n words; it now is an allocated
  // block of at least n words with less than a header and a minimal block to spare, and every
  // other allocated block and its contents are as before.
  ghost predicate Served(m: seq<int>, bl: seq<Block>, fl: seq<int>, m': seq<int>, bl': seq<Block>, r: int, n: int) {
    && (exists i :: 0 <= i < |fl| && fl[i] == r - HEADER && (forall j :: 0 <= j < i ==> Small(m, fl[j], n)))
    && (exists b :: b in bl' && b.used && b.addr == r - HEADER && n <= b.size < n + HEADER + MINIALLOC)
    && Kept(m, bl, m', bl', {r - HEADER})
  }

  lemma ServedBy(m: seq<int>, bl: seq<Block>, fl: seq<int>, m': seq<int>, bl': seq<Block>, r: int, n: int, k: int,
                 i: int, k': int)
    requires 0 <= i < |fl| && fl[i] == r - HEADER && (forall j :: 0 <= j < i ==> Small(m, fl[j], n))
    requires 0 <= k' < |bl'| && bl'[k'].used && bl'[k'].addr == r - HEADER && n <= bl'[k'].size < n + HEADER + MINIALLOC
    requires Kept(m, bl, m', bl', {r - HEADER})
    ensures Served(m, bl, fl, m', bl', r, n)
  {
    assert bl'[k'] in bl';
  }

  // --- the block list is determined by the allocated blocks ---------------------------------------

  ghost predicate SameUsed(b1: seq<Block>, b2: seq<Block>) { forall b: Block :: b.used ==> (b in b1 <==> b in b2) }

  lemma UsedAgree(b1: seq<Block>, b2: seq<Block>, m: seq<int>, i: int)
    requires Tiled(b1, |m|) && Tiled(b2, |m|) && SameUsed(b1, b2)
    requires 0 <= i < |b1| && i < |b2| && b1[i].addr == b2[i].addr && b1[i].used
    ensures b1[i] == b2[i]
  {
    assert b1[i] in b1;
    var j :| 0 <= j < |b2| && b2[j] == b1[i];
    BlocksApart(m, b2, j, i);
  }

  // The used block after a free one starts no later in b2 than in b1.
  lemma NextUsed(b1: seq<Block>, b2: seq<Block>, m: seq<int>, i: int)
    requires Tiled(b1, |m|) && Tiled(b2, |m|) && SameUsed(b1, b2)
    requires 0 <= i < |b1| - 1 && i < |b2| - 1 && b1[i].addr == b2[i].addr && b1[i + 1].used
    ensures b2[i + 1].addr <= b1[i + 1].addr
  {
    assert b1[i + 1] in b1;
    var j :| 0 <= j < |b2| && b2[j] == b1[i + 1];
    Order(b1, |m|, i, i + 1);
    if j < i { Order(b2, |m|, j, i); }
    if j > i + 1 { Order(b2, |m|, i + 1, j); }
  }

  lemma {:induction false} BlocksAgree(b1: seq<Block>, b2: seq<Block>, m: seq<int>, i: int)
    requires Tiled(b1, |m|) && Tiled(b2, |m|) && Coalesced(b1) && Coalesced(b2) && SameUsed(b1, b2)
    requires 0 <= i < |b1| && i < |b2|
    ensures b1[i] == b2[i]
    decreases i
  {
    if i > 0 {
      BlocksAgree(b1, b2, m, i - 1);
      assert Behind(b1, i - 1) && Behind(b2, i - 1);
    }
    if b1[i].used {
      UsedAgree(b1, b2, m, i);
    } else if b2[i].used {
      UsedAgree(b2, b1, m, i);
    } else {
      assert b1[i].used || b1[i + 1].used;
      assert b2[i].used || b2[i + 1].used;
      NextUsed(b1, b2, m, i);
      NextUsed(b2, b1, m, i);
      assert Behind(b1, i) && Behind(b2, i);
    }
  }

  lemma ShorterList(b1: seq<Block>, b2: seq<Block>, m: seq<int>)
    requires Tiled(b1, |m|) && Tiled(b2, |m|) && Coalesced(b1) && Coalesced(b2) && SameUsed(b1, b2)
    ensures |b2| <= |b1|
  {
    if |b1| < |b2| {
      BlocksAgree(b1, b2, m, |b1| - 1);
      Order(b2, |m|, |b1| - 1, |b2| - 1);
    }
  }

  // Two coalesced tilings of a pool with the same allocated blocks are the same.
  lemma BlocksDetermined(b1: seq<Block>, b2: seq<Block>, m: seq<int>)
    requires Tiled(b1, |m|) && Tiled(b2, |m|) && Coalesced(b1) && Coalesced(b2) && SameUsed(b1, b2)
    ensures b1 == b2
  {
    ShorterList(b1, b2, m);
    ShorterList(b2, b1, m);
    forall i | 0 <= i < |b1| ensures b1[i] == b2[i] { BlocksAgree(b1, b2, m, i); }
  }

  // Freeing what was just allocated restores the block list and the available size.
  method AllocThenFree(heap: Heap, bytes: nat)
    requires heap.Valid() && bytes <= SIZE_LIMIT
    modifies heap, heap.mem
    ensures heap.Valid() && heap.blocks == old(heap.blocks) && heap.available == old(heap.available)
  {
    ghost var m0, b0, f0 := heap.mem[..], heap.blocks, heap.free;
    var r := heap.Alloc(bytes);
    if r != NULL {
      ghost var m1, b1 := heap.mem[..], heap.blocks;
      LiveServed(m0, b0, f0, m1, b1, r, Words(bytes));
      heap.Free(r);
      UndoneUsed(m0, b0, f0, m1, b1, heap.mem[..], heap.blocks, r, Words(bytes));
      BlocksDetermined(b0, heap.blocks, m0);
    }
  }

  lemma LiveServed(m: seq<int>, bl: seq<Block>, fl: seq<int>, m': seq<int>, bl': seq<Block>, r: int, n: int)
    requires Served(m, bl, fl, m', bl', r, n) && Tiled(bl', |m'|) && n > 0
    ensures exists k :: 0 <= k < |bl'| - 1 && bl'[k].used && bl'[k].addr == r - HEADER
  {
    var b :| b in bl' && b.used && b.addr == r - HEADER && n <= b.size < n + HEADER + MINIALLOC;
    var k :| 0 <= k < |bl'| && bl'[k] == b;
    assert k < |bl'| - 1;
  }

  lemma UndoneUsed(m0: seq<int>, b0: seq<Block>, f0: seq<int>, m1: seq<int>, b1: seq<Block>, m2: seq<int>,
                   b2: seq<Block>, r: int, n: int)
    requires State(m0, b0, f0, {}) && Served(m0, b0, f0, m1, b1, r, n)
    requires Kept(m1, b1, m2, b2, {r - HEADER}) && NoneUsedAt(b2, r - HEADER)
    ensures SameUsed(b0, b2)
  {
    var h := r - HEADER;
    var i :| 0 <= i < |f0| && f0[i] == h;
    assert f0[i] in f0;
    var k := BlockAt(m0, b0, h);
    forall b: Block | b.used ensures b in b0 <==> b in b2 {
      if b.addr == h && b in b0 {
        var j :| 0 <= j < |b0| && b0[j] == b;
        BlocksApart(m0, b0, j, k);
      }
    }
  }

  // --- when a fitting request is refused -------------------------------------------------------------

  lemma {:induction false} FreeSumCovers(bl: seq<Block>, k: int)
    requires 0 <= k < |bl| && !bl[k].used && forall i :: 0 <= i < |bl| ==> bl[i].size >= 0
    ensures bl[k].size <= FreeSum(bl) && FreeSum(bl) >= 0
  {
    FreeSumNatural(bl[1..]);
    if k > 0 { FreeSumCovers(bl[1..], k - 1); }
  }

  lemma {:induction false} FreeSumNatural(bl: seq<Block>)
    requires forall i :: 0 <= i < |bl| ==> bl[i].size >= 0
    ensures FreeSum(bl) >= 0
  {
    if bl != [] { FreeSumNatural(bl[1..]); }
  }

  // Alloc refuses a request that a free block could serve only when that block is exactly the
  // size of the request and is all the free memory there is.
  lemma RefusedFit(bl: seq<Block>, end: int, k: int, n: int)
    requires Tiled(bl, end) && 0 <= k < |bl| && !bl[k].used && bl[k].size >= n
    ensures n >= FreeSum(bl) <==> n == bl[k].size == FreeSum(bl)
  {
    forall i | 0 <= i < |bl| ensures bl[i].size >= 0 { if i < |bl| - 1 { assert Behind(bl, i); } }
    FreeSumCovers(bl, k);
  }

  // At a fresh pool: a request for exactly its free words is refused, one for a word less is served.
  method WholePoolRefused(bytes: nat) returns (whole: int, less: int)
    requires 4 * (2 * HEADER + MINIALLOC + 1) <= bytes <= SIZE_LIMIT
    ensures whole == NULL && less != NULL
  {
    var heap := new Heap(bytes);
    var n := heap.available;
    RefusedFit(heap.blocks, heap.mem.Length, 0, n);
    whole := heap.Alloc(4 * n);
    assert heap.blocks[0] in heap.blocks;
    less := heap.Alloc(4 * (n - 1));
  }
}
