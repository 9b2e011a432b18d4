/** The isolated allocator on its heap: blocks linked by `next`, bumped in place, mapped and
    unmapped through the kernel. Each method is tied to the function of BlockPool it computes. */
module IsolatedAllocator {
  import opened Options
  import opened Words
  import opened BlockPool

  /** The kernel's view of the process: which ranges are mapped, and the calls to `munmap`. */
  class AddressSpace {
    var mapped: map<nat, nat>
    ghost var released: seq<(nat, nat)>

    constructor ()
      ensures mapped == map[] && released == []
    {
      mapped, released := map[], [];
    }

    method Mmap(total: nat, answer: Option<nat>) returns (r: Option<nat>)
      requires answer.Some? ==> answer.value !in mapped
      modifies this
      ensures r == answer && released == old(released)
      ensures mapped == if answer.Some? then old(mapped)[answer.value := total] else old(mapped)
    {
      if answer.Some? {
        mapped := mapped[answer.value := total];
      }
      r := answer;
    }

    /** Unmapping asks for a mapped range and the length it was mapped with. */
    method Munmap(page: nat, total: nat)
      requires page in mapped && mapped[page] == total
      modifies this
      ensures mapped == old(mapped) - {page} && released == old(released) + [(page, total)]
    {
      mapped := mapped - {page};
      released := released + [(page, total)];
    }
  }

  /** The header at the start of a mapping; `page` is its own address. */
  class Block {
    const page: nat
    var memory: nat
    var size: nat
    var used: nat
    var next: Block?

    constructor (page: nat, size: nat)
      ensures this.page == page && memory == page + HEADER && this.size == size
      ensures used == 0 && next == null
    {
      this.page := page;
      this.memory := page + HEADER;
      this.size := size;
      this.used := 0;
      this.next := null;
    }

    predicate Holds(s: Segment)
      reads this
    {
      page == s.page && memory == s.Memory() && size == s.size && used == s.used
    }
  }

  /** The kernel maps the listed blocks, each once and with the length asked for, and nothing else. */
  ghost predicate MapsExactly(mapped: map<nat, nat>, segments: seq<Segment>) {
    if segments == [] then mapped == map[]
    else
      && segments[0].page in mapped && mapped[segments[0].page] == MapSize(segments[0].size)
      && MapsExactly(mapped - {segments[0].page}, segments[1..])
  }

  lemma {:induction false} AnswerIsUnmapped(mapped: map<nat, nat>, segments: seq<Segment>, page: nat)
    requires MapsExactly(mapped, segments)
    requires forall s :: s in segments ==> s.page != page
    ensures page !in mapped
  {
    if segments != [] {
      AnswerIsUnmapped(mapped - {segments[0].page}, segments[1..], page);
    }
  }

  lemma {:induction false} ListedIsMapped(mapped: map<nat, nat>, segments: seq<Segment>, i: nat)
    requires MapsExactly(mapped, segments) && i < |segments|
    ensures segments[i].page in mapped
  {
    if i > 0 {
      ListedIsMapped(mapped - {segments[0].page}, segments[1..], i - 1);
    }
  }

  lemma {:induction false} MappingOneMore(mapped: map<nat, nat>, segments: seq<Segment>, page: nat, size: nat)
    requires MapsExactly(mapped, segments) && page !in mapped
    ensures MapsExactly(mapped[page := MapSize(size)], segments + [Segment(page, size, 0)])
  {
    var longer := segments + [Segment(page, size, 0)];
    if segments == [] {
      assert mapped[page := MapSize(size)] - {page} == map[];
    } else {
      var rest := mapped - {segments[0].page};
      MappingOneMore(rest, segments[1..], page, size);
      assert mapped[page := MapSize(size)] - {segments[0].page} == rest[page := MapSize(size)];
      assert longer[1..] == segments[1..] + [Segment(page, size, 0)];
    }
  }

  lemma {:induction false} BumpingKeepsMappings(mapped: map<nat, nat>, segments: seq<Segment>, i: nat, used: nat)
    requires MapsExactly(mapped, segments) && i < |segments|
    ensures MapsExactly(mapped, segments[i := segments[i].(used := used)])
  {
    var changed := segments[i := segments[i].(used := used)];
    if i == 0 {
      assert changed[1..] == segments[1..];
    } else {
      BumpingKeepsMappings(mapped - {segments[0].page}, segments[1..], i - 1, used);
      assert changed[1..] == segments[1..][i - 1 := segments[i].(used := used)];
    }
  }

  function Mappings(segments: seq<Segment>): (m: seq<(nat, nat)>)
    ensures |m| == |segments|
    ensures forall i :: 0 <= i < |m| ==> m[i] == (segments[i].page, MapSize(segments[i].size))
  {
    seq(|segments|, i requires 0 <= i < |segments| => (segments[i].page, MapSize(segments[i].size)))
  }

  class IsolatedAllocator {
    const kernel: AddressSpace
    var head: Block?
    ghost var chain: seq<Block>  // the list, from head
    ghost var pool: Pool         // its contents, and the pointers handed out since the last shutdown

    /** The list is acyclic and complete, and its nodes hold the contents. */
    ghost predicate Linked()
      reads this, chain
    {
      && (head == null <==> chain == [])
      && (chain != [] ==> head == chain[0] && chain[|chain| - 1].next == null)
      && (forall i :: 0 <= i < |chain| - 1 ==> chain[i].next == chain[i + 1])
      && (forall i, j :: 0 <= i < j < |chain| ==> chain[i] != chain[j])
      && |pool.segments| == |chain|
      && forall i :: 0 <= i < |chain| ==> chain[i].Holds(pool.segments[i])
    }

    /** Nodes that were not in the list before are new objects. */
    twostate predicate AddsFresh()
      reads this
    {
      forall i :: 0 <= i < |chain| ==> chain[i] in old(chain) || fresh(chain[i])
    }

    ghost predicate Valid()
      reads this, chain, kernel
    {
      Linked() && MapsExactly(kernel.mapped, pool.segments)
    }

    /** Nothing but the list and the mappings matters. */
    twostate lemma StaysValid()
      requires old(Valid()) && unchanged(this) && unchanged(chain) && unchanged(kernel)
      ensures Valid()
    {
    }

    constructor (kernel: AddressSpace)
      requires kernel.mapped == map[]
      ensures Valid() && pool == EMPTY && this.kernel == kernel
    {
      this.kernel := kernel;
      head := null;
      chain, pool := [], EMPTY;
    }

    method AllocateOSBlock(size: nat, answer: Option<nat>) returns (block: Block?)
      requires answer.Some? ==> answer.value !in kernel.mapped
      modifies kernel
      ensures kernel.released == old(kernel.released)
      ensures answer.None? ==> block == null && kernel.mapped == old(kernel.mapped)
      ensures answer.Some? ==>
                && block != null && fresh(block)
                && block.Holds(Segment(answer.value, size, 0)) && block.next == null
                && kernel.mapped == old(kernel.mapped)[answer.value := MapSize(size)]
                && (size + 32 < WORD ==> kernel.mapped[answer.value] == size + 32)
    {
      var mapped := kernel.Mmap(Wrap(size + HEADER), answer);
      if mapped.None? {
        return null;
      }
      block := new Block(mapped.value, size);
    }

    /** Put a new block behind the last one, or at the head of an empty list. */
    method Link(last: Block?, block: Block)
      requires Linked() && block !in chain && block.next == null
      requires last == if chain == [] then null else chain[|chain| - 1]
      requires block.Holds(Segment(block.page, block.size, 0))
      modifies this`head, this`chain, this`pool, if last == null then {} else {last}
      ensures Linked() && chain == old(chain) + [block]
      ensures pool == Append(old(pool), block.page, block.size)
    {
      if last != null {
        last.next := block;
      } else {
        head := block;
      }
      chain := chain + [block];
      pool := Append(pool, block.page, block.size);
    }

    /** Map a block and put it at the end of the list. */
    method MapBlock(last: Block?, size: nat, answer: Option<nat>) returns (block: Block?)
      requires Valid() && MayAnswer(pool.segments, MapSize(size), answer)
      requires last == if chain == [] then null else chain[|chain| - 1]
      modifies this`head, this`chain, this`pool, kernel, if last == null then {} else {last}
      ensures Valid() && kernel.released == old(kernel.released)
      ensures answer.None? ==> block == null && pool == old(pool) && chain == old(chain)
      ensures answer.Some? ==>
                && block != null && fresh(block) && chain == old(chain) + [block]
                && pool == Append(old(pool), answer.value, size)
    {
      if answer.Some? {
        AnswerIsUnmapped(kernel.mapped, pool.segments, answer.value);
      }
      ghost var mapped := kernel.mapped;
      block := AllocateOSBlock(size, answer);
      if block != null {
        MappingOneMore(mapped, pool.segments, block.page, size);
        Link(last, block);
      }
    }

    /** Does nothing when there is a list; `std::bad_alloc` leaves when the kernel refuses the
        first block. */
    method Initialize(capacity: nat, answer: Option<nat>) returns (threw: bool)
      requires Valid()
      requires MayAnswer(pool.segments, MapSize(if capacity > MIN_BLOCK then capacity else MIN_BLOCK), answer)
      modifies this, kernel
      ensures Valid() && pool == Initialized(old(pool), capacity, answer)
      ensures threw <==> pool.segments == []
      ensures old(head) == null && answer.Some? ==>
                && fresh(head) && head.page == answer.value && head.used == 0 && head.next == null
                && head.size == (if capacity > 0x20_0000 then capacity else 0x20_0000)
      ensures kernel.released == old(kernel.released)
      ensures chain == old(chain) || (|chain| == 1 && fresh(chain[0]))
    {
      threw := false;
      if head == null {
        var block := MapBlock(null, if capacity > MIN_BLOCK then capacity else MIN_BLOCK, answer);
        threw := block == null;
      }
    }

    method FreeOSBlock(block: Block)
      requires block.page in kernel.mapped && kernel.mapped[block.page] == MapSize(block.size)
      modifies kernel
      ensures kernel.mapped == old(kernel.mapped) - {block.page}
      ensures kernel.released == old(kernel.released) + [(block.page, MapSize(block.size))]
    {
      kernel.Munmap(block.page, Wrap(block.size + HEADER));
    }

    /** Reading a header is allowed only while its page is mapped. */
    method NextOf(block: Block) returns (next: Block?)
      requires block.page in kernel.mapped
      ensures next == block.next
    {
      next := block.next;
    }

    /** Every block is unmapped exactly once, in list order, with the length it was mapped
        with, and no header is read after its page is gone. */
    method Shutdown()
      requires Valid()
      modifies this, kernel
      ensures Valid() && pool == EMPTY && chain == []
      ensures kernel.mapped == map[]
      ensures kernel.released == old(kernel.released) + Mappings(old(pool.segments))
    {
      ghost var blocks, segments := chain, pool.segments;
      var curr := head;
      ghost var k := 0;
      while curr != null
        modifies kernel
        invariant 0 <= k <= |blocks| && curr == if k < |blocks| then blocks[k] else null
        invariant MapsExactly(kernel.mapped, segments[k..])
        invariant kernel.released == old(kernel.released) + Mappings(segments[..k])
        decreases |blocks| - k
      {
        UnmappingNext(kernel.mapped, segments, k);
        var next := NextOf(curr);
        FreeOSBlock(curr);
        curr := next;
        k := k + 1;
      }
      assert segments[..k] == segments && segments[k..] == [];
      head := null;
      chain, pool := [], EMPTY;
    }

    /** Where the request would go in a block, and the bytes in use after it. */
    method Place(curr: Block, ghost s: Segment, size: nat, alignment: nat) returns (alignedAddr: nat, used: nat)
      requires curr.Holds(s) && curr.page in kernel.mapped
      ensures alignedAddr == AlignUp(s.Cursor(), alignment) && used == Bumped(s, size, alignment)
    {
      var baseAddr := Wrap(curr.memory + curr.used);
      assert baseAddr == s.Cursor();
      alignedAddr := AlignUp(baseAddr, alignment);
      var padding := Wrap(alignedAddr as int - baseAddr as int);
      assert padding == Padding(s, alignment);
      used := Wrap(curr.used + padding + size);
    }

    /** Bump the k-th block to the end of the request placed in it. */
    method Bump(curr: Block, ghost k: nat, used: nat, ghost size: nat, ghost alignment: nat)
      requires Valid() && k < |chain| && chain[k] == curr
      requires used == Bumped(pool.segments[k], size, alignment)
      modifies this`pool, curr`used
      ensures Valid() && pool == Give(old(pool), k, size, alignment)
    {
      BumpingKeepsMappings(kernel.mapped, pool.segments, k, used);
      curr.used := used;
      pool := Give(pool, k, size, alignment);
    }

    /** The walk of `Allocate`: the first block of the list the request fits in, where it goes
        there, and the block before it; null and the last block when it fits in none. */
    method FindFirstFit(size: nat, alignment: nat)
      returns (curr: Block?, last: Block?, alignedAddr: nat, used: nat)
      requires Valid() && head != null
      ensures var i := FirstFit(pool.segments, size, alignment);
              && curr == (if i < |chain| then chain[i] else null)
              && last == (if i > 0 then chain[i - 1] else null)
              && (i < |chain| ==>
                    && alignedAddr == AlignUp(pool.segments[i].Cursor(), alignment)
                    && used == Bumped(pool.segments[i], size, alignment))
    {
      curr, last := head, null;
      alignedAddr, used := 0, 0;
      ghost var k := 0;
      while curr != null
        invariant 0 <= k <= |chain|
        invariant curr == if k < |chain| then chain[k] else null
        invariant last == if k > 0 then chain[k - 1] else null
        invariant forall j :: 0 <= j < k ==> !Fits(pool.segments[j], size, alignment)
        decreases |chain| - k
      {
        ListedIsMapped(kernel.mapped, pool.segments, k);
        alignedAddr, used := Place(curr, pool.segments[k], size, alignment);
        if used <= curr.size {
          break;
        }
        last := curr;
        curr := NextOf(curr);
        k := k + 1;
      }
      FirstFitIs(pool.segments, size, alignment, k);
    }

    /** Bump the first block that fits, if there is one. */
    method BumpFirstFit(size: nat, alignment: nat) returns (r: Option<nat>, last: Block?)
      requires Valid() && head != null
      modifies this`pool, chain
      ensures Valid() && chain == old(chain)
      ensures var i := FirstFit(old(pool).segments, size, alignment);
              if i < |chain| then (pool, r) == BlockPool.Bump(old(pool), i, size, alignment)
              else pool == old(pool) && r == None && last == chain[|chain| - 1]
    {
      var curr, alignedAddr, used;
      curr, last, alignedAddr, used := FindFirstFit(size, alignment);
      if curr == null {
        return None, last;
      }
      Bump(curr, FirstFit(pool.segments, size, alignment), used, size, alignment);
      r := Some(alignedAddr);
    }

    method Allocate(size: nat, alignment: nat, forHead: Option<nat>, forNew: Option<nat>)
      returns (r: Option<nat>)
      requires Valid() && AnswersOk(pool, size, forHead, forNew)
      modifies this, chain, kernel
      ensures Valid() && kernel.released == old(kernel.released)
      ensures (pool, r) == Allocated(old(pool), size, alignment, forHead, forNew)
      ensures AddsFresh()
    {
      var threw := Initialize(MIN_BLOCK, forHead);
      if threw {
        return None;
      }
      r := AllocateFromList(size, alignment, forNew);
    }

    /** The walk, and a new block if it finds no room. */
    method AllocateFromList(size: nat, alignment: nat, forNew: Option<nat>) returns (r: Option<nat>)
      requires Valid() && head != null && MayAnswer(pool.segments, MapSize(NewBlockSize(size)), forNew)
      modifies this, chain, kernel
      ensures Valid() && kernel.released == old(kernel.released)
      ensures (pool, r) == AllocatedFromList(old(pool), size, alignment, forNew)
      ensures AddsFresh()
    {
      var last;
      r, last := BumpFirstFit(size, alignment);
      if r.None? {
        r := AllocateFromNewBlock(last, size, alignment, forNew);
      }
    }

    /** The end of `Allocate`: map a block, link it and bump it without a test. */
    method AllocateFromNewBlock(last: Block, size: nat, alignment: nat, forNew: Option<nat>)
      returns (r: Option<nat>)
      requires Valid() && chain != [] && last == chain[|chain| - 1]
      requires MayAnswer(pool.segments, MapSize(NewBlockSize(size)), forNew)
      modifies this, last, kernel
      ensures Valid() && kernel.released == old(kernel.released)
      ensures (pool, r) == AllocatedInNewBlock(old(pool), size, alignment, forNew)
      ensures AddsFresh()
    {
      var doubled := Wrap(size * 2);
      var block := MapBlock(last, if doubled > MIN_BLOCK then doubled else MIN_BLOCK, forNew);
      if block == null {
        return None;
      }
      ghost var k := |chain| - 1;
      ListedIsMapped(kernel.mapped, pool.segments, k);
      var alignedAddr, used := Place(block, pool.segments[k], size, alignment);
      Bump(block, k, used, size, alignment);
      r := Some(alignedAddr);
    }

    // ----- histories on the heap -----

    method Perform(op: Operation, ghost maxAlignment: nat)
      requires Valid() && Admissible(pool, op, maxAlignment)
      modifies this, chain, kernel
      ensures Valid() && pool == Apply(old(pool), op)
      ensures AddsFresh()
    {
      match op
      case DoInitialize(capacity, answer) => var _ := Initialize(capacity, answer);
      case DoAllocate(size, alignment, forHead, forNew) =>
        var _ := Allocate(size, alignment, forHead, forNew);
      case DoShutdown => Shutdown();
    }

    /** Any history of calls on the linked list: it stays acyclic, complete and mapped exactly,
        its contents and the pointers given are those of the history on values, and all regions
        are as promised if and only if every call was served. */
    method PerformAll(ops: seq<Operation>, ghost maxAlignment: nat)
      requires Valid() && AllAdmissible(pool, ops, maxAlignment)
      modifies this, chain, kernel
      ensures Valid() && pool == Run(old(pool), ops)
      ensures AddsFresh()
      ensures old(PoolOk(pool)) && AllServed(old(pool), ops) ==> PoolOk(pool)
      ensures old(PoolOk(pool)) && (forall i :: 0 <= i < |ops| ==> Ordinary(ops[i])) ==> PoolOk(pool)
      decreases |ops|
    {
      SoundHistory(pool, ops, maxAlignment);
      if ops != [] {
        Perform(ops[0], maxAlignment);
        PerformAll(ops[1..], maxAlignment);
      }
    }
  }

  lemma SoundHistory(p: Pool, ops: seq<Operation>, maxAlignment: nat)
    requires AllAdmissible(p, ops, maxAlignment)
    ensures PoolOk(p) && AllServed(p, ops) ==> PoolOk(Run(p, ops))
    ensures PoolOk(p) && (forall i :: 0 <= i < |ops| ==> Ordinary(ops[i])) ==> PoolOk(Run(p, ops))
  {
    if PoolOk(p) {
      if AllServed(p, ops) {
        HistoryIsSoundExactlyWhenServed(p, ops, maxAlignment);
        EndOfHistory(p, ops);
      }
      if forall i :: 0 <= i < |ops| ==> Ordinary(ops[i]) {
        EveryHistoryKeepsPool(p, ops, maxAlignment);
      }
    }
  }

  lemma UnmappingNext(mapped: map<nat, nat>, segments: seq<Segment>, k: nat)
    requires k < |segments| && MapsExactly(mapped, segments[k..])
    ensures segments[k].page in mapped && mapped[segments[k].page] == MapSize(segments[k].size)
    ensures MapsExactly(mapped - {segments[k].page}, segments[k + 1..])
    ensures Mappings(segments[..k + 1]) == Mappings(segments[..k]) + [(segments[k].page, MapSize(segments[k].size))]
  {
    assert segments[k..][0] == segments[k] && segments[k..][1..] == segments[k + 1..];
  }
}
