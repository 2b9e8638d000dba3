/** The chunked register file: a call's locals live in linked chunks of 32 registers,
    which are added when first needed and go back to a shared pool at the end. */
module Registers {
  import opened ByteCodec
  import opened Evaluation

  const REGISTERS_SIZE := 32

  class Chunk {
    var next: Chunk?
    var registers: seq<Maybe>

    ghost predicate Clean()
      reads this
    {
      next == null && registers == seq(REGISTERS_SIZE, i => None)
    }

    constructor ()
      ensures Clean()
    {
      next, registers := null, seq(REGISTERS_SIZE, i => None);
    }
  }

  ghost predicate AllDifferent(chunks: seq<Chunk>) {
    forall i, j | 0 <= i < j < |chunks| :: chunks[i] != chunks[j]
  }

  /** registersPool: whatever is in it is clean. */
  class Pool {
    var free: seq<Chunk>

    ghost predicate Valid()
      reads this, free
    {
      AllDifferent(free) && forall i | 0 <= i < |free| :: free[i].Clean()
    }

    constructor ()
      ensures Valid() && free == []
    {
      free := [];
    }

    /** A pooled chunk, or a new one: all registers undefined. */
    method Get() returns (c: Chunk)
      requires Valid()
      modifies this
      ensures Valid() && c.Clean() && c !in free
      ensures (fresh(c) && free == old(free)) || (old(free) == free + [c])
    {
      if free == [] {
        c := new Chunk();
      } else {
        c := free[|free| - 1];
        free := free[..|free| - 1];
      }
    }

    method Put(c: Chunk)
      requires Valid() && c.Clean() && c !in free
      modifies this
      ensures Valid() && free == old(free) + [c]
    {
      free := free + [c];
    }
  }

  class RegisterFile {
    const pool: Pool
    const first: Chunk
    ghost var chain: seq<Chunk>

    /** The chunks hang together, are all different, and none of them is in the pool. */
    ghost predicate Linked()
      reads this, chain
    {
      && |chain| > 0 && chain[0] == first && AllDifferent(chain)
      && (forall i | 0 <= i < |chain| :: |chain[i].registers| == REGISTERS_SIZE)
      && (forall i | 0 <= i < |chain| - 1 :: chain[i].next == chain[i + 1])
      && chain[|chain| - 1].next == null
    }

    ghost predicate Valid()
      reads this, chain, pool, pool.free
    {
      Linked() && pool.Valid() && forall i | 0 <= i < |chain| :: chain[i] !in pool.free
    }

    /** The value of a local: undefined beyond the last chunk. */
    ghost function Value(v: nat): Maybe
      requires Linked()
      reads this, chain
    {
      if v / REGISTERS_SIZE < |chain| then chain[v / REGISTERS_SIZE].registers[v % REGISTERS_SIZE] else None
    }

    constructor (pool: Pool)
      requires pool.Valid()
      ensures Valid() && this.pool == pool && fresh(chain) && forall v: nat :: Value(v) == None
    {
      this.pool := pool;
      first := new Chunk();
      new;
      chain := [first];
    }

    /** Every local has the value it had. */
    twostate predicate SameValues()
      reads this, chain
      requires old(Linked()) && Linked()
    {
      forall v: nat :: Value(v) == old(Value(v))
    }

    /** The chunk behind `r`, taken from the pool if there is none yet. */
    method Extend(r: Chunk, ghost k: nat) returns (next: Chunk)
      requires Valid() && k < |chain| && chain[k] == r
      modifies this, pool, chain[k]
      ensures Valid() && SameValues()
      ensures k + 1 < |chain| && chain[k + 1] == next
      ensures chain == old(chain) || (k == |old(chain)| - 1 && chain == old(chain) + [next])
      ensures fresh(next) || next in old(chain) || next in old(pool.free)
      ensures forall c | c in pool.free :: c in old(pool.free)
    {
      assert k < |chain| - 1 ==> r.next == chain[k + 1];
      if r.next != null {
        return r.next;
      }
      next := pool.Get();
      assert next !in chain;
      r.next := next;
      chain := chain + [next];
      assert forall i | 0 <= i < |chain| - 1 :: chain[i].next == chain[i + 1] by {
        assert forall i | 0 <= i < k :: chain[i] != r && chain[i].next == old(chain[i].next) == chain[i + 1];
      }
    }

    /** findReg: walks to the chunk of a local. */
    method FindReg(v: nat) returns (r: Chunk)
      requires Valid()
      modifies this, pool, chain, pool.free
      ensures Valid() && SameValues() && old(chain) <= chain
      ensures v / REGISTERS_SIZE < |chain| && chain[v / REGISTERS_SIZE] == r
      ensures forall c | c in chain && c !in old(chain) :: fresh(c) || c in old(pool.free)
    {
      r := first;
      for i := 0 to v / REGISTERS_SIZE
        invariant Valid() && SameValues() && old(chain) <= chain && i < |chain| && chain[i] == r
        invariant forall c | c in chain && c !in old(chain) :: fresh(c) || c in old(pool.free)
        invariant forall c | c in pool.free :: c in old(pool.free)
      {
        assert r in chain;
        r := Extend(r, i);
      }
    }

    /** State.Local. */
    method Local(v: nat) returns (value: Maybe)
      requires Valid()
      modifies this, pool, chain, pool.free
      ensures Valid() && SameValues() && value == Value(v)
    {
      var r := FindReg(v);
      return r.registers[v % REGISTERS_SIZE];
    }

    /** The register of a local that has a chunk. */
    method Store(r: Chunk, target: nat, value: Maybe)
      requires Valid() && target / REGISTERS_SIZE < |chain| && chain[target / REGISTERS_SIZE] == r
      modifies r
      ensures Valid() && forall v: nat :: Value(v) == if v == target then value else old(Value(v))
    {
      r.registers := r.registers[target % REGISTERS_SIZE := value];
      forall v: nat | v != target ensures Value(v) == old(Value(v)) {
        if v / REGISTERS_SIZE == target / REGISTERS_SIZE {
          assert v % REGISTERS_SIZE != target % REGISTERS_SIZE;
        } else if v / REGISTERS_SIZE < |chain| {
          assert chain[v / REGISTERS_SIZE] != r;
        }
      }
    }

    /** State.SetValue: no other local changes. */
    method SetValue(target: nat, value: Maybe)
      requires Valid()
      modifies this, pool, chain, pool.free
      ensures Valid() && forall v: nat :: Value(v) == if v == target then value else old(Value(v))
    {
      var r := FindReg(target);
      assert r in chain;
      Store(r, target, value);
    }

    /** find2Regs: one walk finds the chunks of two locals. */
    method Find2Regs(v1: nat, v2: nat) returns (r1: Chunk, r2: Chunk)
      requires Valid()
      modifies this, pool, chain, pool.free
      ensures Valid() && SameValues()
      ensures v1 / REGISTERS_SIZE < |chain| && chain[v1 / REGISTERS_SIZE] == r1
      ensures v2 / REGISTERS_SIZE < |chain| && chain[v2 / REGISTERS_SIZE] == r2
      ensures forall c | c in chain && c !in old(chain) :: fresh(c) || c in old(pool.free)
    {
      var buckets1, buckets2 := v1 / REGISTERS_SIZE, v2 / REGISTERS_SIZE;
      var r, i := first, 0;
      r1, r2 := r, r;
      while i < buckets1 || i < buckets2
        invariant Valid() && SameValues() && old(chain) <= chain && 0 <= i < |chain| && chain[i] == r
        invariant forall c | c in chain && c !in old(chain) :: fresh(c) || c in old(pool.free)
        invariant forall c | c in pool.free :: c in old(pool.free)
        invariant buckets1 <= i ==> chain[buckets1] == r1
        invariant buckets2 <= i ==> chain[buckets2] == r2
        decreases (if buckets1 > buckets2 then buckets1 else buckets2) - i
      {
        assert r in chain;
        r := Extend(r, i);
        i := i + 1;
        if i == buckets1 {
          r1 := r;
        }
        if i == buckets2 {
          r2 := r;
        }
      }
    }

    /** State.SetLocal: copies one local to another. */
    method SetLocal(target: nat, source: nat)
      requires Valid()
      modifies this, pool, chain, pool.free
      ensures Valid() && forall v: nat :: Value(v) == old(Value(if v == target then source else v))
    {
      var r1, r2 := Find2Regs(target, source);
      assert r1 in chain;
      assert r2.registers[source % REGISTERS_SIZE] == Value(source);
      Store(r1, target, r2.registers[source % REGISTERS_SIZE]);
    }

    /** Release: every chunk is cleared, and all but the first go back to the pool. */
    method Release()
      requires Valid()
      modifies this, chain, pool
      ensures Valid() && chain == [first] && forall v: nat :: Value(v) == None
      ensures pool.free == old(pool.free) + old(chain[1..])
    {
      ghost var was := chain;
      var p := first.next;
      ghost var k := 1;
      first.registers := seq(REGISTERS_SIZE, i => None);
      assert |was| > 1 ==> p == was[1];
      while p != null
        invariant 1 <= k <= |was| && (p == null <==> k == |was|) && (k < |was| ==> p == was[k])
        invariant forall i | k <= i < |was| - 1 :: was[i].next == was[i + 1]
        invariant was[|was| - 1].next == null
        invariant pool.Valid() && pool.free == old(pool.free) + was[1..k] && |first.registers| == REGISTERS_SIZE
        invariant first.registers == seq(REGISTERS_SIZE, i => None)
        decreases |was| - k
      {
        p.registers := seq(REGISTERS_SIZE, i => None);
        var next := p.next;
        assert k < |was| - 1 ==> next == was[k + 1];
        p.next := null;
        pool.Put(p);
        assert was[1..k + 1] == was[1..k] + [p];
        p, k := next, k + 1;
      }
      first.next := null;
      chain := [first];
      assert was[1..k] == was[1..];
    }
  }
}
