/** Card memory as 32-bit words at byte addresses, and the pool that hands it out. */
module CardMemory {
  import opened PoolSpec
  import opened Pool
  import opened Words

  // ---------- what the loops leave ----------

  /** Memory after clearing the words from start up to end with a value; past the end nothing happens. */
  function Cleared(mem: seq<bv32>, start: nat, end: nat, value: bv32): (r: seq<bv32>)
    ensures |r| == |mem|
  {
    seq(|mem|, k requires 0 <= k < |mem| => if start <= 4 * k < end then value else mem[k])
  }

  /** Memory after copying words to an address; what would fall past the end is dropped. */
  function Copied(mem: seq<bv32>, src: seq<bv32>, addr: nat): (r: seq<bv32>)
    requires addr % 4 == 0
    ensures |r| == |mem|
  {
    seq(|mem|, k requires 0 <= k < |mem| => if addr / 4 <= k < addr / 4 + |src| then src[k - addr / 4] else mem[k])
  }

  /** Every word from start up to end holds the value, and no other has changed. */
  lemma ClearedIs(mem: seq<bv32>, start: nat, end: nat, value: bv32, k: nat)
    requires k < |mem|
    ensures start <= 4 * k && 4 * k < end ==> Cleared(mem, start, end, value)[k] == value
    ensures 4 * k < start || end <= 4 * k ==> Cleared(mem, start, end, value)[k] == mem[k]
  {}

  /** Word i of the source stands i words from the address, and no other has changed. */
  lemma CopiedIs(mem: seq<bv32>, src: seq<bv32>, addr: nat)
    requires addr % 4 == 0
    ensures forall i :: 0 <= i < |src| && addr / 4 + i < |mem| ==> Copied(mem, src, addr)[addr / 4 + i] == src[i]
    ensures forall k :: 0 <= k < |mem| && (4 * k < addr || addr + 4 * |src| <= 4 * k) ==>
              Copied(mem, src, addr)[k] == mem[k]
  {}

  class CardMemory {
    const words: array<bv32>

    constructor (memlen: nat)
      requires memlen % 4 == 0
      ensures fresh(words) && words.Length == memlen / 4
    {
      words := new bv32[memlen / 4](_ => 0);
    }

    function Memlen(): nat { 4 * words.Length }

    /** tl880_write_memory. Its guard lets mem == memlen through, one word past the end: no caller
        modelled here does that. */
    method Write(mem: nat, value: bv32)
      requires mem % 4 == 0 && mem != Memlen()
      modifies words
      ensures words[..] == if mem < Memlen() then old(words[..])[mem / 4 := value] else old(words[..])
    {
      if mem > Memlen() {
        return;
      }
      words[mem / 4] := value;
    }

    /** tl880_clear_sdram. */
    method ClearSdram(startAddr: nat, endAddr: nat, value: bv32)
      requires startAddr % 4 == 0
      modifies words
      ensures words[..] == Cleared(old(words[..]), startAddr, endAddr, value)
    {
      ghost var was := words[..];
      var addr := startAddr;
      while addr < endAddr && addr < Memlen()
        invariant addr % 4 == 0 && startAddr <= addr
        invariant forall k :: 0 <= k < words.Length ==>
          words[k] == if startAddr <= 4 * k < endAddr && 4 * k < addr then value else was[k]
      {
        Write(addr, value);
        addr := addr + 4;
      }
      assert words[..] == Cleared(was, startAddr, endAddr, value);
    }

    /** tl880_memcpy of whole words: the length is cut at the end of memory. */
    method Memcpy(src: seq<bv32>, addr: nat)
      requires addr % 4 == 0
      modifies words
      ensures words[..] == Copied(old(words[..]), src, addr)
    {
      ghost var was := words[..];
      if addr > Memlen() {
        assert words[..] == Copied(was, src, addr);
        return;
      }
      var length := 4 * |src|;
      if addr + length > Memlen() {
        length := Memlen() - addr;
      }
      var i := 0;
      while i < length / 4
        invariant 0 <= i <= length / 4
        invariant forall k :: 0 <= k < words.Length ==>
          words[k] == if addr / 4 <= k < addr / 4 + i then src[k - addr / 4] else was[k]
      {
        words[addr / 4 + i] := src[i];
        i := i + 1;
      }
      assert words[..] == Copied(was, src, addr);
    }
  }

  /** The whole of memory above 0x100000, as the driver counts it: memlen - 0x11000 bytes, so the
      pool's range runs past the end of memory. */
  function InitialPool(memlen: nat): seq<Chunk>
    requires memlen >= 0x11000
  {
    AddChunk([], 64, 0x100000, memlen - 0x11000)
  }

  const EINVAL: int := 22
  const ENOMEM: int := 12

  class Device {
    const memory: CardMemory
    var pool: GenPool?

    constructor (memlen: nat)
      requires memlen % 4 == 0
      ensures memory.Memlen() == memlen && pool == null
    {
      memory := new CardMemory(memlen);
      pool := null;
    }

    ghost predicate Ready()
      reads this, pool, if pool == null then {} else pool.Repr
    {
      pool != null && pool.Valid() && pool.granule == 64
    }

    ghost function PoolView(): seq<Chunk>
      requires Ready()
      reads this, pool, if pool == null then {} else pool.Repr
    {
      pool.View()
    }

    /** tl880_init_memory; the flags say whether the pool and its chunk could be allocated. A pool
        that cannot be filled is destroyed again, and its BUG_ON stays silent. */
    method InitMemory(createOk: bool, addOk: bool) returns (result: int)
      requires memory.Memlen() >= 0x11000
      modifies this
      ensures old(pool) != null ==> result == -22 && pool == old(pool)
      ensures old(pool) == null && !createOk ==> result == -12 && pool == null
      ensures old(pool) == null && createOk && !addOk ==> result == -1 && pool == null
      ensures old(pool) == null && createOk && addOk ==>
                result == 0 && fresh(pool) && Ready() && PoolView() == InitialPool(memory.Memlen())
    {
      if pool != null {
        return -EINVAL;
      }
      if !createOk {
        return -ENOMEM;
      }
      var created := new GenPool(6);
      assert Pow2(6) == 64;
      pool := created;
      result := pool.Add(0x100000, memory.Memlen() - 0x11000, addOk);
      if result != 0 {
        var bug := pool.Destroy();
        assert !bug;
        pool := null;
      }
    }

    /** tl880_deinit_memory: whether the pool's BUG_ON fires. */
    method DeinitMemory() returns (bug: bool)
      requires pool == null || pool.Valid()
      modifies this, pool
      ensures bug <==> old(pool != null && InUse(pool.View()))
      ensures !bug ==> pool == null
    {
      bug := false;
      if pool != null {
        bug := pool.Destroy();
        if !bug {
          pool := null;
        }
      }
    }

    /** tl880_alloc_memory. */
    method AllocMemory(bytes: nat) returns (addr: nat)
      requires pool == null || Ready()
      modifies if pool == null then {} else pool.Repr
      ensures pool == null ==> addr == 0
      ensures pool != null ==> Ready() && (PoolView(), addr) == PoolSpec.Alloc(old(PoolView()), 64, bytes)
    {
      if pool == null {
        return 0;
      }
      addr := pool.Alloc(bytes);
    }

    /** tl880_free_memory: nothing without a pool, else how the pool's free ends. */
    method FreeMemory(addr: nat, bytes: nat) returns (outcome: FreeOutcome)
      requires pool == null || (Ready() && RunInBitmap(PoolView(), 64, addr, bytes))
      modifies if pool == null then {} else pool.Repr
      ensures pool == null ==> outcome == Freed
      ensures pool != null ==> Ready() && (PoolView(), outcome) == PoolSpec.Free(old(PoolView()), 64, addr, bytes)
    {
      if pool == null {
        return Freed;
      }
      outcome := pool.Free(addr, bytes);
    }
  }
}
