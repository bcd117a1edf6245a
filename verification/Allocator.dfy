/** The pooling allocator: reference-counted blocks, recycled through one free list a size class. */
module Allocator {
  import opened SizeClass

  class MemoryBlock {
    /** The owner recorded in the block's header. */
    const list: FreeList
    var next: MemoryBlock?
    var refs: int

    constructor (list: FreeList)
      ensures this.list == list && next == null && refs == 0
    {
      this.list, next, refs := list, null, 0;
    }

    /** Hand the block out. */
    method Data()
      modifies `refs
      ensures refs == old(refs) + 1
    {
      refs := refs + 1;
    }

    /** One owner more, for a block that has one. */
    method Link()
      requires list.Valid() && this in list.held
      modifies `refs, list`held
      ensures list.Valid() && list.held == old(list.held) + multiset{this}
    {
      refs := refs + 1;
      list.held := list.held + multiset{this};
    }

    /** One owner fewer; without owners the block goes back to its list. */
    method Unlink()
      requires list.Valid() && this in list.held
      modifies this, list
      ensures list.Valid() && list.made == old(list.made) && list.held == old(list.held) - multiset{this}
      ensures list.chain == if this in list.held then old(list.chain) else [this] + old(list.chain)
    {
      hide list.Linked;
      assert this in list.made && refs == list.held[this];
      refs := refs - 1;
      list.held := list.held - multiset{this};
      assert refs == list.held[this];
      if refs == 0 {
        list.Push(this);
      }
    }
  }

  class FreeList {
    const size: nat
    var free: MemoryBlock?
    /** The free blocks in the order they are linked, all blocks ever made for this list, and their owners. */
    ghost var chain: seq<MemoryBlock>
    ghost var made: set<MemoryBlock>
    ghost var held: multiset<MemoryBlock>

    ghost predicate Linked()
      reads `free, `chain, `made, made`next
    {
      && (forall i {:trigger chain[i]} :: 0 <= i < |chain| ==> chain[i] in made)
      && (forall i {:trigger chain[i].next} :: 0 <= i < |chain| ==>
            chain[i].next == if i + 1 < |chain| then chain[i + 1] else null)
      && (forall i, j {:trigger chain[i], chain[j]} :: 0 <= i < j < |chain| ==> chain[i] != chain[j])
      && free == if chain == [] then null else chain[0]
    }

    /** Every block counts its owners. */
    ghost predicate Counted()
      reads `made, `held, made`refs
    {
      && (forall b {:trigger b in made} :: b in made ==> b.list == this && b.refs == held[b])
      && (forall b {:trigger b in made} :: b in held ==> b in made)
    }

    /** Exactly the blocks without owners are linked. */
    ghost predicate Valid()
      reads this, made
    {
      && Linked() && Counted()
      && forall b {:trigger b in made} :: b in made ==> (b !in held <==> b in chain)
    }

    constructor (size: nat)
      ensures Valid() && fresh(made) && this.size == size && held == multiset{}
    {
      this.size := size;
      free, chain, made, held := null, [], {}, multiset{};
      new;
      var block := new MemoryBlock(this);
      free := block;
      chain, made := [block], {block};
    }

    /** A new block for an empty list. */
    method AddBlock()
      requires Valid() && free == null
      modifies `free, `chain, `made
      ensures Valid() && free != null && fresh(free) && chain == [free] && made == old(made) + {free}
    {
      free := new MemoryBlock(this);
      chain, made := [free], made + {free};
    }

    /** A block without owners gets its first one. */
    method Pop() returns (block: MemoryBlock)
      requires Valid()
      modifies this, if chain == [] then {} else {chain[0]}
      ensures Valid() && made == old(made) + {block} && block.list == this
      ensures block !in old(held) && held == old(held) + multiset{block}
      ensures if old(chain) == [] then fresh(block) && chain == []
              else block == old(chain[0]) && chain == old(chain[1..])
    {
      assert free == null <==> chain == [];
      hide Linked, Counted;
      if free == null {
        AddBlock();
      }
      block := Unchain();
      CountFirstOwner(block);
    }

    /** The first block leaves the chain. */
    method Unchain() returns (block: MemoryBlock)
      requires Valid() && free != null
      modifies `free, `chain
      ensures chain == old(chain[1..]) && old(chain) != [] && block == old(chain[0]) && block in made && block !in held
      ensures block !in chain && Linked() && Counted()
      ensures forall b {:trigger b in made} :: b in made && b != block ==> (b !in held <==> b in chain)
    {
      block := free;
      free := block.next;
      chain := chain[1..];
    }

    /** The block handed out gets its first owner. */
    method CountFirstOwner(block: MemoryBlock)
      requires Linked() && Counted() && block in made && block !in held && block !in chain
      requires forall b {:trigger b in made} :: b in made && b != block ==> (b !in held <==> b in chain)
      modifies `held, block`refs
      ensures Valid() && held == old(held) + multiset{block} && block.list == this
    {
      hide Linked;
      block.Data();
      held := held + multiset{block};
    }

    method Push(block: MemoryBlock)
      requires Linked() && Counted() && block in made && block !in chain && block !in held
      requires forall b {:trigger b in made} :: b in made && b != block ==> (b !in held <==> b in chain)
      modifies `free, `chain, block`next
      ensures Valid() && chain == [block] + old(chain)
    {
      block.next := free;
      free := block;
      chain := [block] + chain;
    }
  }

  class SmartAllocator {
    var pools: map<nat, FreeList>
    /** The pools' lists, and all their blocks. */
    ghost var lists: set<FreeList>
    ghost var blocks: set<MemoryBlock>

    ghost predicate PoolsKnown()
      reads `pools, `lists
    {
      && (forall k {:trigger pools[k]} :: k in pools ==> pools[k] in lists && pools[k].size == k)
      && (forall l {:trigger l in lists} :: l in lists ==> l.size in pools && pools[l.size] == l)
    }

    ghost predicate ListsValid()
      reads this, lists, blocks
    {
      forall l {:trigger l in lists} :: l in lists ==> l.made <= blocks && l.Valid()
    }

    ghost predicate Valid()
      reads this, lists, blocks
    {
      PoolsKnown() && ListsValid()
    }

    /** Different lists have no block in common. */
    lemma OthersApart(list: FreeList)
      requires Valid() && list in lists
      ensures forall l {:trigger l in lists} :: l in lists && l != list ==> l.made !! list.made
    {
      forall l, b | l in lists && l != list && b in l.made ensures b !in list.made {
        assert l.Valid() && list.Valid();
      }
    }

    lemma FirstIsMade(list: FreeList)
      requires Valid() && list in lists
      ensures list.chain != [] ==> list.chain[0] in list.made
    {
    }

    lemma OwnedIsMade(block: MemoryBlock)
      requires Valid() && block.list in lists && block in block.list.held
      ensures block in block.list.made
    {
    }

    constructor ()
      ensures Valid() && lists == {}
    {
      pools, lists, blocks := map[], {}, {};
    }

    /** A block of the request's class that nobody owned; every other block keeps its owners. */
    method Alloc(size: bv64) returns (block: MemoryBlock)
      requires Valid()
      modifies this, lists, blocks
      ensures Valid() && fresh(lists - old(lists)) && fresh(blocks - old(blocks))
      ensures block.list in lists && block.list.size == ClassOf(size) as nat
      ensures block.list !in old(lists) ==> block.list.held == multiset{block}
      ensures lists >= old(lists) && forall l {:trigger l in old(lists)} :: l in old(lists) ==>
        if l == block.list then block !in old(l.held) && l.held == old(l.held) + multiset{block}
        else l.held == old(l.held)
    {
      hide FreeList.Valid, FreeList.Linked, ClassOf;
      var c := ClassOf(size) as nat;
      EnsurePool(c);
      block := Take(pools[c]);
    }

    /** There is a list for the size class. */
    method EnsurePool(c: nat)
      requires Valid()
      modifies this
      ensures Valid() && c in pools && pools[c].size == c
      ensures lists == old(lists) + {pools[c]} && fresh(lists - old(lists)) && fresh(blocks - old(blocks))
      ensures pools[c] !in old(lists) ==> pools[c].held == multiset{} && fresh(pools[c].made)
    {
      hide FreeList.Valid, FreeList.Linked;
      if c !in pools {
        var list := new FreeList(c);
        pools := pools[c := list];
        lists, blocks := lists + {list}, blocks + list.made;
      }
    }

    /** Pop a block off a list. */
    method Take(list: FreeList) returns (block: MemoryBlock)
      requires Valid() && list in lists
      modifies `blocks, list, list.made
      ensures Valid() && fresh(blocks - old(blocks)) && block.list == list
      ensures block !in old(list.held) && list.held == old(list.held) + multiset{block}
    {
      hide FreeList.Valid, FreeList.Linked, FreeList.Counted, PoolsKnown;
      OthersApart(list);
      FirstIsMade(list);
      block := list.Pop();
      blocks := blocks + {block};
    }

    /** One more owner. */
    method Refer(block: MemoryBlock)
      requires Valid() && block.list in lists && block in block.list.held
      modifies block, block.list
      ensures Valid() && block.list.held == old(block.list.held) + multiset{block}
    {
      hide FreeList.Valid, FreeList.Linked, FreeList.Counted, PoolsKnown;
      OthersApart(block.list);
      OwnedIsMade(block);
      block.Link();
    }

    /** One owner fewer; the last one returns the block to its list. */
    method Free(block: MemoryBlock)
      requires Valid() && block.list in lists && block in block.list.held
      modifies block, block.list
      ensures Valid() && block.list.held == old(block.list.held) - multiset{block}
      ensures block.list.chain ==
              if block in block.list.held then old(block.list.chain) else [block] + old(block.list.chain)
    {
      hide FreeList.Valid, FreeList.Linked, FreeList.Counted, PoolsKnown;
      OthersApart(block.list);
      OwnedIsMade(block);
      block.Unlink();
    }
  }
}
