/** The fixed-block pool that serves a plugin's allocations (picoquic/memory.c).

    The first word of a free block names the next free one. Blocks are put on that chain
    lazily: only the first `initialized` blocks have ever had their word written, and the chain
    is continued by the untouched tail. */
module Pool {

  const MAGIC := 0xa110ca7ab1e
  const BLOCK := 2100
  const PLUGIN_MEMORY := 16 * 1024 * 1024

  /** The first word of each block, the head of the chain (-1 for NULL) and the two counts. */
  datatype State = State(words: seq<int>, next: int, free: int, initialized: nat)

  /** init_block_memory_management. */
  function Fresh(blocks: nat): State {
    State(seq(blocks, _ => 0), 0, blocks, 0)
  }

  /** The first half of my_malloc_block: one more block joins the chain. */
  function Extend(p: State): State {
    if p.initialized < |p.words| then
      p.(words := p.words[p.initialized := p.initialized + 1], initialized := p.initialized + 1)
    else p
  }

  predicate CanTake(p: State) {
    p.free > 0 ==> 0 <= p.next < |p.words|
  }

  /** The second half: the head of the chain is handed out. */
  function Take(p: State): (State, int)
    requires CanTake(p)
  {
    if p.free > 0 then
      (p.(words := p.words[p.next := MAGIC], free := p.free - 1,
          next := if p.free > 1 then p.words[p.next] else -1), p.next)
    else (p, -1)
  }

  /** my_malloc_block: the new state and the block handed out, or -1. */
  function Malloc(p: State, size: nat): (State, int)
    requires CanTake(p)
  {
    if size > BLOCK - 8 then (p, -1) else Take(Extend(p))
  }

  /** my_free_block. */
  function Free(p: State, i: int): State
    requires 0 <= i < |p.words|
  {
    p.(words := p.words[i := if p.next != -1 then p.next else |p.words|], next := i, free := p.free + 1)
  }

  // ------------------------------------------------------------------------------ the invariant

  ghost predicate Distinct(chain: seq<int>) {
    forall i, j :: 0 <= i < j < |chain| ==> chain[i] != chain[j]
  }

  /** What follows entry k of the chain: the next entry, or the untouched tail. */
  ghost function Follows(p: State, chain: seq<int>, k: int): int
    requires 0 <= k <= |chain|
  {
    if k < |chain| then chain[k] else p.initialized
  }

  /** The links of p run through the chain. */
  ghost predicate Chained(p: State, chain: seq<int>) {
    && (forall k :: 0 <= k < |chain| ==> 0 <= chain[k] < p.initialized <= |p.words|)
    && (forall k :: 0 <= k < |chain| ==> p.words[chain[k]] == Follows(p, chain, k + 1))
  }

  /** Every block ever touched is on the chain, once, or live. */
  ghost predicate Shared(n: nat, chain: seq<int>, live: set<int>) {
    && Distinct(chain)
    && (forall i :: i in chain ==> 0 <= i < n && i !in live)
    && (forall i :: i in live ==> 0 <= i < n)
    && (forall i :: 0 <= i < n ==> i in live || i in chain)
  }

  ghost predicate Marked(p: State, live: set<int>) {
    forall i :: i in live ==> 0 <= i < |p.words| && p.words[i] == MAGIC
  }

  /** The chain and the untouched tail are exactly the blocks that are not live, each once. */
  ghost predicate Good(p: State, chain: seq<int>, live: set<int>) {
    && p.initialized <= |p.words| && Shared(p.initialized, chain, live)
    && Chained(p, chain) && Marked(p, live)
    && p.free == |chain| + |p.words| - p.initialized
    && p.next == if p.free == 0 then -1 else Follows(p, chain, 0)
  }

  lemma FreshGood(blocks: nat)
    requires blocks > 0
    ensures Good(Fresh(blocks), [], {})
  {
  }

  lemma ShareMore(n: nat, chain: seq<int>, live: set<int>)
    requires Shared(n, chain, live)
    ensures Shared(n + 1, chain + [n], live)
  {
    assert forall i :: i in chain + [n] <==> i in chain || i == n;
    assert forall k :: 0 <= k < |chain| ==> chain[k] in chain;
  }

  lemma ShareTaken(n: nat, chain: seq<int>, live: set<int>)
    requires Shared(n, chain, live) && |chain| > 0
    ensures Shared(n, chain[1..], live + {chain[0]})
  {
    var rest := chain[1..];
    assert forall k :: 0 <= k < |rest| ==> rest[k] == chain[k + 1] != chain[0];
    assert forall i :: i in chain <==> i == chain[0] || i in rest;
  }

  lemma ShareFreed(n: nat, chain: seq<int>, live: set<int>, i: int)
    requires Shared(n, chain, live) && i in live
    ensures Shared(n, [i] + chain, live - {i})
  {
  }

  lemma ExtendChained(p: State, chain: seq<int>)
    requires Chained(p, chain) && p.initialized < |p.words|
    ensures Chained(Extend(p), chain + [p.initialized])
  {
    var q, longer := Extend(p), chain + [p.initialized];
    forall k | 0 <= k < |longer|
      ensures 0 <= longer[k] < q.initialized <= |q.words|
      ensures q.words[longer[k]] == Follows(q, longer, k + 1)
    {
      if k < |chain| { assert p.words[chain[k]] == Follows(p, chain, k + 1); }
    }
  }

  lemma ExtendGood(p: State, chain: seq<int>, live: set<int>)
    requires Good(p, chain, live) && p.initialized < |p.words|
    ensures Good(Extend(p), chain + [p.initialized], live)
  {
    ShareMore(p.initialized, chain, live);
    ExtendChained(p, chain);
    assert Marked(Extend(p), live);
    hide Shared, Chained, Marked;
  }

  lemma TakeChained(p: State, q: State, chain: seq<int>)
    requires Chained(p, chain) && Distinct(chain) && |chain| > 0
    requires q.initialized == p.initialized && q.words == p.words[chain[0] := MAGIC]
    ensures Chained(q, chain[1..])
  {
    var rest := chain[1..];
    forall k | 0 <= k < |rest|
      ensures 0 <= rest[k] < q.initialized <= |q.words|
      ensures q.words[rest[k]] == Follows(q, rest, k + 1)
    {
      assert p.words[chain[k + 1]] == Follows(p, chain, k + 2) && chain[0] != chain[k + 1];
    }
  }

  lemma TakeGood(p: State, chain: seq<int>, live: set<int>)
    requires Good(p, chain, live) && |chain| > 0
    ensures CanTake(p) && Take(p).1 == chain[0] && Good(Take(p).0, chain[1..], live + {chain[0]})
  {
    ShareTaken(p.initialized, chain, live);
    assert p.words[chain[0]] == Follows(p, chain, 1);
    TakeChained(p, Take(p).0, chain);
    hide Shared, Chained;
  }

  lemma FreeGood(p: State, chain: seq<int>, live: set<int>, i: int)
    requires Good(p, chain, live) && i in live
    ensures Good(Free(p, i), [i] + chain, live - {i})
  {
    var q, longer := Free(p, i), [i] + chain;
    ShareFreed(p.initialized, chain, live, i);
    forall k | 0 <= k < |longer| ensures q.words[longer[k]] == Follows(q, longer, k + 1) {
      if k > 0 { assert chain[k - 1] in chain && p.words[chain[k - 1]] == Follows(p, chain, k); }
    }
  }

  // -------------------------------------------------------------------------- what a caller gets

  lemma {:induction false} Numbers(n: nat, live: set<int>)
    requires forall i :: i in live <==> 0 <= i < n
    ensures |live| == n
  {
    if n == 0 {
      assert forall i :: i !in live;
    } else {
      Numbers(n - 1, live - {n - 1});
    }
  }

  lemma {:induction false} SharedCount(n: nat, chain: seq<int>, live: set<int>)
    requires Shared(n, chain, live)
    ensures |live| + |chain| == n
    decreases |chain|
  {
    if chain == [] {
      Numbers(n, live);
    } else {
      ShareTaken(n, chain, live);
      SharedCount(n, chain[1..], live + {chain[0]});
      assert chain[0] in chain;
    }
  }

  /** Some chain makes p a pool whose live blocks are exactly those. */
  ghost predicate Sound(p: State, live: set<int>) {
    exists chain :: Good(p, chain, live)
  }

  /** The blocks are conserved: each is live or counted free. */
  lemma Conserved(p: State, live: set<int>)
    requires Sound(p, live)
    ensures CanTake(p) && |live| + p.free == |p.words| && 0 <= p.free
    ensures forall i :: i in live ==> 0 <= i < |p.words|
  {
    var chain :| Good(p, chain, live);
    SharedCount(p.initialized, chain, live);
    if |chain| > 0 { assert chain[0] in chain; }
  }

  /** A request that fits fails only when every block is live; otherwise the block handed out
      was not live. A failed request changes nothing. */
  lemma MallocCorrect(p: State, live: set<int>, size: nat)
    requires Sound(p, live)
    ensures CanTake(p)
    ensures var (q, r) := Malloc(p, size);
            && (r == -1 <==> size > BLOCK - 8 || |live| == |p.words|)
            && (r == -1 ==> q == p)
            && (r != -1 ==> 0 <= r < |p.words| && r !in live && Sound(q, live + {r}))
  {
    Conserved(p, live);
    var chain :| Good(p, chain, live);
    if size <= BLOCK - 8 && p.free > 0 {
      var q, longer := p, chain;
      if p.initialized < |p.words| {
        ExtendGood(p, chain, live);
        q, longer := Extend(p), chain + [p.initialized];
      }
      TakeGood(q, longer, live);
      assert longer[0] in longer;
    }
  }

  /** The block reached from block i by following k links. */
  function Walk(p: State, i: int, k: nat): int {
    if k == 0 then i
    else
      var j := Walk(p, i, k - 1);
      if 0 <= j < |p.words| then p.words[j] else j
  }

  /** In a pool, the links from `next` run through the chain. */
  lemma {:induction false} WalkChain(p: State, chain: seq<int>, live: set<int>, k: nat)
    requires Good(p, chain, live) && k < |chain|
    ensures Walk(p, p.next, k) == chain[k]
  {
    if k > 0 {
      WalkChain(p, chain, live, k - 1);
      assert p.words[chain[k - 1]] == Follows(p, chain, k);
    }
  }

  /** Freeing block chain[m], which is free already, closes the chain into a ring: from `next`
      the links lead through chain[0] to chain[m - 1] and back. */
  lemma {:induction false} SecondFreeRing(p: State, chain: seq<int>, live: set<int>, m: nat, k: nat)
    requires Good(p, chain, live) && m < |chain| && k <= m
    ensures 0 <= chain[m] < |p.words| && Free(p, chain[m]).next == chain[m]
    ensures Walk(Free(p, chain[m]), chain[m], k + 1) == chain[k]
  {
    assert chain[m] in chain;
    var q := Free(p, chain[m]);
    if k > 0 {
      SecondFreeRing(p, chain, live, m, k - 1);
      assert p.words[chain[k - 1]] == Follows(p, chain, k) && chain[k - 1] != chain[m];
    }
  }

  /** n requests that fit: the state after them and the blocks handed out. */
  function Asks(p: State, n: nat): (State, seq<int>) {
    if n == 0 then (p, [])
    else
      var (q, blocks) := Asks(p, n - 1);
      if CanTake(q) then (Malloc(q, 0).0, blocks + [Malloc(q, 0).1]) else (q, blocks)
  }

  /** The pool after a second free of chain[m] and k requests, k <= m + 1. */
  ghost predicate OnRing(p: State, chain: seq<int>, m: nat, k: nat)
    requires m < |chain|
  {
    && p.initialized <= |p.words| && p.free >= m + 2 - k
    && (forall j :: 0 <= j < |chain| ==> 0 <= chain[j] < p.initialized)
    && p.next == (if k == 0 then chain[m] else if k <= m then chain[k - 1] else chain[m])
    && (k == 0 ==> p.words[chain[m]] == chain[0])
    && (forall j :: 0 <= j < m && j >= k - 1 ==> p.words[chain[j]] == chain[j + 1])
  }

  lemma RingStep(p: State, chain: seq<int>, m: nat, k: nat)
    requires Distinct(chain) && m < |chain| && k <= m && OnRing(p, chain, m, k)
    ensures CanTake(p) && Malloc(p, 0).1 == p.next && OnRing(Malloc(p, 0).0, chain, m, k + 1)
  {
    var e := Extend(p);
    assert forall j :: 0 <= j < |chain| ==> e.words[chain[j]] == p.words[chain[j]];
  }

  lemma {:induction false} RingRun(q: State, chain: seq<int>, m: nat, k: nat)
    requires Distinct(chain) && m < |chain| && OnRing(q, chain, m, 0) && 1 <= k <= m + 1
    ensures OnRing(Asks(q, k).0, chain, m, k) && Asks(q, k).1 == [chain[m]] + chain[..k - 1]
  {
    if k == 1 {
      RingStep(q, chain, m, 0);
      assert Asks(q, 0) == (q, []) && q.next == chain[m];
    } else {
      RingRun(q, chain, m, k - 1);
      var p := Asks(q, k - 1).0;
      RingStep(p, chain, m, k - 1);
      assert p.next == chain[k - 2];
      hide OnRing, Malloc;
      assert chain[..k - 1] == chain[..k - 2] + [chain[k - 2]];
    }
  }

  /** A fresh pool hands out its blocks in order. */
  lemma {:induction false} FreshInOrder(blocks: nat, k: nat)
    requires k <= blocks
    ensures Asks(Fresh(blocks), k).1 == seq(k, j => j)
    ensures var p := Asks(Fresh(blocks), k).0;
            && |p.words| == blocks && p.initialized == k && p.free == blocks - k
            && (k < blocks || k == 0 ==> p.next == k)
  {
    if k > 0 {
      FreshInOrder(blocks, k - 1);
      assert seq(k, j => j) == seq(k - 1, j => j) + [k - 1];
    }
  }

  /** The block freed last is handed out next; once every block has been touched, the two calls
      leave the pool as it was. */
  lemma LastFreedFirst(p: State, live: set<int>, i: int, size: nat)
    requires Sound(p, live) && i in live && size <= BLOCK - 8
    ensures 0 <= i < |p.words| && CanTake(Free(p, i)) && Malloc(Free(p, i), size).1 == i
    ensures p.initialized == |p.words| ==> Malloc(Free(p, i), size).0 == p
  {
    Conserved(p, live);
    var chain :| Good(p, chain, live);
    assert p.words[i] == MAGIC;
    assert p.words[i := MAGIC] == p.words;
    hide Good;
  }

  /** The harm of a second free: the next m + 2 requests get chain[m], all blocks before it on
      the chain, and chain[m] once more. */
  lemma HandedOutTwice(p: State, chain: seq<int>, live: set<int>, m: nat)
    requires Good(p, chain, live) && m < |chain|
    ensures 0 <= chain[m] < |p.words|
    ensures Asks(Free(p, chain[m]), m + 2).1 == [chain[m]] + chain[..m] + [chain[m]]
  {
    RingStart(p, chain, live, m);
    hide Good, OnRing, Free, Malloc;
    var q := Free(p, chain[m]);
    RingRun(q, chain, m, m + 1);
    RingEnd(Asks(q, m + 1).0, chain, m);
  }

  lemma RingStart(p: State, chain: seq<int>, live: set<int>, m: nat)
    requires Good(p, chain, live) && m < |chain|
    ensures 0 <= chain[m] < |p.words| && OnRing(Free(p, chain[m]), chain, m, 0) && Distinct(chain)
  {
    assert forall j :: 0 <= j < |chain| ==> chain[j] in chain;
    forall j | 0 <= j < m ensures Free(p, chain[m]).words[chain[j]] == chain[j + 1] {
      assert p.words[chain[j]] == Follows(p, chain, j + 1) && chain[j] != chain[m];
    }
  }

  lemma RingEnd(p: State, chain: seq<int>, m: nat)
    requires m < |chain| && OnRing(p, chain, m, m + 1)
    ensures CanTake(p) && Malloc(p, 0).1 == chain[m]
  {
  }

  /** Freeing a block leaves a pool, with whatever live blocks, exactly when the block was live:
      my_free_block reports a bad pointer but goes on, and a second free closes the chain
      into a ring. */
  lemma FreeSoundIff(p: State, live: set<int>, i: int)
    requires Sound(p, live) && 0 <= i < |p.words|
    ensures (exists others :: Sound(Free(p, i), others)) <==> i in live
    ensures i in live ==> Sound(Free(p, i), live - {i})
  {
    hide Good, Free;
    var chain :| Good(p, chain, live);
    if i in live {
      FreeGood(p, chain, live, i);
      assert Good(Free(p, i), [i] + chain, live - {i});
      assert Sound(Free(p, i), live - {i});
    } else {
      forall others: set<int> ensures !Sound(Free(p, i), others) {
        forall longer: seq<int> ensures !Good(Free(p, i), longer, others) {
          NotTwice(p, chain, live, i, longer, others);
        }
      }
    }
  }

  /** The check in front of it does tell: in a pool of fewer blocks than the mark, a block that
      was ever touched bears the mark exactly when it is live. */
  lemma MarkedIff(p: State, live: set<int>, i: int)
    requires Sound(p, live) && |p.words| < MAGIC && 0 <= i < p.initialized
    ensures p.initialized <= |p.words| && (p.words[i] == MAGIC <==> i in live)
  {
    var chain :| Good(p, chain, live);
    if i in chain {
      var k :| 0 <= k < |chain| && chain[k] == i;
      assert p.words[chain[k]] == Follows(p, chain, k + 1);
    }
  }

  lemma NotTwice(p: State, chain: seq<int>, live: set<int>, i: int, longer: seq<int>, others: set<int>)
    requires Good(p, chain, live) && 0 <= i < |p.words| && i !in live
    ensures !Good(Free(p, i), longer, others)
  {
    if Good(Free(p, i), longer, others) {
      assert longer[0] == i;
      var m :| 0 <= m < |chain| && chain[m] == i;
      SecondFreeRing(p, chain, live, m, m);
      WalkChain(Free(p, i), longer, others, m + 1);
      assert false;
    }
  }

  // ------------------------------------------------------------------------------- whole runs

  datatype Op = Ask(size: nat) | Give(block: int)

  datatype World = World(pool: State, live: set<int>)

  /** A plugin may ask at any time and may give back what it holds. */
  ghost predicate Allowed(w: World, op: Op) {
    op.Give? ==> op.block in w.live
  }

  ghost function Do(w: World, op: Op): World
    requires Sound(w.pool, w.live) && Allowed(w, op)
  {
    Conserved(w.pool, w.live);
    match op
    case Ask(size) =>
      var (q, r) := Malloc(w.pool, size);
      World(q, if r == -1 then w.live else w.live + {r})
    case Give(i) => World(Free(w.pool, i), w.live - {i})
  }

  lemma DoKeeps(w: World, op: Op)
    requires Sound(w.pool, w.live) && Allowed(w, op)
    ensures Sound(Do(w, op).pool, Do(w, op).live) && |Do(w, op).pool.words| == |w.pool.words|
  {
    Conserved(w.pool, w.live);
    match op
    case Ask(size) => MallocCorrect(w.pool, w.live, size);
    case Give(i) => FreeSoundIff(w.pool, w.live, i);
  }

  ghost predicate Step(w: World, op: Op, w': World) {
    Sound(w.pool, w.live) ==> Allowed(w, op) && w' == Do(w, op)
  }

  /** The worlds of a run: each step is allowed and leads to the next world. */
  ghost predicate IsRun(ws: seq<World>, ops: seq<Op>) {
    |ws| == |ops| + 1 && forall k :: 0 <= k < |ops| ==> Step(ws[k], ops[k], ws[k + 1])
  }

  /** From a fresh pool, after any sequence of requests and returns: the chain completed by the
      untouched tail is exactly the non-live blocks, every block is live or counted free, and
      the next request that fits gets a block that is not live, or fails because all are. */
  lemma {:induction false} RunSound(ws: seq<World>, ops: seq<Op>, blocks: nat, k: nat, size: nat)
    requires IsRun(ws, ops) && blocks > 0 && ws[0] == World(Fresh(blocks), {}) && k <= |ops|
    ensures Sound(ws[k].pool, ws[k].live) && |ws[k].pool.words| == blocks && CanTake(ws[k].pool)
    ensures |ws[k].live| + ws[k].pool.free == blocks
    ensures var r := Malloc(ws[k].pool, size).1;
            && r !in ws[k].live
            && (r == -1 <==> size > BLOCK - 8 || |ws[k].live| == blocks)
  {
    if k == 0 {
      FreshGood(blocks);
    } else {
      var j: nat := k - 1;
      RunSound(ws, ops, blocks, j, size);
      assert Step(ws[j], ops[j], ws[j + 1]);
      DoKeeps(ws[j], ops[j]);
    }
    hide Sound, Do, Malloc;
    Conserved(ws[k].pool, ws[k].live);
    MallocCorrect(ws[k].pool, ws[k].live, size);
  }

  // --------------------------------------------------------------------------- the pool in place

  /** The links that my_malloc_block follows stay inside the pool. */
  lemma LinksInRange(p: State, live: set<int>)
    requires Sound(p, live)
    ensures p.initialized <= |p.words| && CanTake(Extend(p))
    ensures var q := Extend(p); q.free > 1 ==> 0 <= q.words[q.next] < |p.words|
  {
    var chain :| Good(p, chain, live);
    if p.free > 0 {
      var q, longer := p, chain;
      if p.initialized < |p.words| {
        ExtendGood(p, chain, live);
        q, longer := Extend(p), chain + [p.initialized];
      }
      assert q.words[longer[0]] == Follows(q, longer, 1);
    }
  }

  /** addr_from_index. */
  function Address(start: nat, i: int): int {
    start + i * BLOCK
  }

  /** index_from_addr. */
  function Index(start: nat, p: int): int {
    (p - start) / BLOCK
  }

  /** The two are inverse, also for an address inside a block. */
  lemma AddressIndex(start: nat, i: int, offset: nat)
    requires offset < BLOCK
    ensures Index(start, Address(start, i) + offset) == i
  {
  }

  class MemoryPool {
    const start: nat
    const words: array<int>
    var next: int
    var free: int
    var initialized: nat

    /** The addresses of the pool stand for blocks, 0 for NULL. */
    ghost predicate Valid()
      reads this
    {
      && start > 0
      && (next != 0 ==> exists i :: 0 <= i < words.Length && next == Address(start, i))
    }

    ghost function Abstract(): State
      reads this, words
    {
      State(words[..], if next == 0 then -1 else Index(start, next), free, initialized)
    }

    /** init_block_memory_management. */
    constructor (start: nat)
      requires start > 0
      ensures Valid() && fresh(words) && this.start == start
      ensures Abstract() == Fresh(PLUGIN_MEMORY / BLOCK) && Sound(Abstract(), {})
    {
      this.start := start;
      words := new int[PLUGIN_MEMORY / BLOCK](_ => 0);
      next, free, initialized := start, PLUGIN_MEMORY / BLOCK, 0;
      new;
      assert next == Address(start, 0);
      assert words[..] == seq(words.Length, _ => 0);
      FreshGood(PLUGIN_MEMORY / BLOCK);
    }

    /** my_malloc_block, its first half. */
    method ExtendBlock()
      requires Valid() && initialized <= words.Length
      modifies `initialized, words
      ensures Valid() && Abstract() == Extend(old(Abstract()))
    {
      if initialized < words.Length {
        words[initialized] := initialized + 1;
        initialized := initialized + 1;
      }
    }

    /** my_malloc_block, its second half. */
    method TakeBlock() returns (p: int)
      requires Valid() && CanTake(Abstract())
      requires free > 1 ==> 0 <= words[Index(start, next)] < words.Length
      modifies `next, `free, words
      ensures Valid() && Abstract() == Take(old(Abstract())).0
      ensures var r := Take(old(Abstract())).1; p == if r == -1 then 0 else Address(start, r) + 8
    {
      p := 0;
      if free > 0 {
        ghost var i :| 0 <= i < words.Length && next == Address(start, i);
        AddressIndex(start, i, 0);
        p := next;
        free := free - 1;
        if free > 0 {
          AddressIndex(start, words[i], 0);
          next := Address(start, words[Index(start, next)]);
        } else {
          next := 0;
        }
        words[Index(start, p)] := MAGIC;
        p := p + 8;
      }
    }

    /** my_malloc_block. */
    method MallocBlock(size: nat, ghost live: set<int>) returns (p: int)
      requires Valid() && Sound(Abstract(), live)
      modifies this, words
      ensures Valid() && CanTake(old(Abstract()))
      ensures Abstract() == Malloc(old(Abstract()), size).0
      ensures var r := Malloc(old(Abstract()), size).1; p == if r == -1 then 0 else Address(start, r) + 8
    {
      Conserved(Abstract(), live);
      LinksInRange(Abstract(), live);
      if size > BLOCK - 8 {
        return 0;
      }
      hide Sound, Extend, Take, Index, Address;
      ExtendBlock();
      p := TakeBlock();
    }

    /** my_free_block, on a block of this pool. It tells whether it found the mark of a live
        block. */
    method FreeBlock(p: int, ghost i: int) returns (marked: bool)
      requires Valid() && 0 <= i < words.Length && p == Address(start, i) + 8
      modifies this, words
      ensures Valid() && Abstract() == Free(old(Abstract()), i)
      ensures marked == (old(words[i]) == MAGIC)
    {
      var block := p - 8;
      AddressIndex(start, i, 0);
      marked := words[Index(start, block)] == MAGIC;
      if next != 0 {
        words[Index(start, block)] := Index(start, next);
      } else {
        words[Index(start, block)] := words.Length;
      }
      next := block;
      free := free + 1;
    }
  }
}
