/**
 Why a file's blocks are always large enough: while the block size can still grow, the file fits into one block.
 */
module WriteGrowth {
  import opened RangeLockModel
  import opened RangeLockInvariant
  import opened RangeLockTheorems
  import opened RangeLockGuarantees
  import opened WriteModel
  import opened WriteLocks

  predicate CanGrow(z: Znode) {
    !IsPowerOfTwo(z.blksz) || z.blksz < z.maxBlksz
  }

  /** A file that ends at `end` fits into one block, or the block size is final. */
  predicate RoomFor(z: Znode, end: nat) {
    end <= z.blksz || !CanGrow(z)
  }

  /** The record size is a power of two within the limits of the pool, and no block is larger than those. */
  predicate ZnodeOk(z: Znode) {
    z.maxBlksz in {512, 1024, 2048, 4096, 8192, 16384, 32768, 65536, 131072} && z.blksz <= SPA_MAXBLOCKSIZE
  }

  lemma RecordSizes()
    ensures IsPowerOfTwo(512) && IsPowerOfTwo(1024) && IsPowerOfTwo(2048) && IsPowerOfTwo(4096) && IsPowerOfTwo(8192)
    ensures IsPowerOfTwo(16384) && IsPowerOfTwo(32768) && IsPowerOfTwo(65536) && IsPowerOfTwo(131072)
  {
    assert IsPowerOfTwo(2) && IsPowerOfTwo(4);
    assert IsPowerOfTwo(8) && IsPowerOfTwo(16);
    assert IsPowerOfTwo(32) && IsPowerOfTwo(64);
    assert IsPowerOfTwo(128) && IsPowerOfTwo(256);
    assert IsPowerOfTwo(512) && IsPowerOfTwo(1024);
    assert IsPowerOfTwo(2048) && IsPowerOfTwo(4096);
    assert IsPowerOfTwo(8192) && IsPowerOfTwo(16384);
    assert IsPowerOfTwo(32768) && IsPowerOfTwo(65536);
  }

  lemma LargestSize(z: Znode)
    requires ZnodeOk(z)
    ensures IsPowerOfTwo(z.maxBlksz) && IsPowerOfTwo(SPA_MAXBLOCKSIZE)
    ensures RoundUp(z.maxBlksz) == z.maxBlksz && RoundUp(SPA_MAXBLOCKSIZE) == SPA_MAXBLOCKSIZE
  {
    RecordSizes();
    RoundSizes(z);
  }

  lemma RoundSizes(z: Znode)
    requires ZnodeOk(z)
    ensures RoundUp(z.maxBlksz) == z.maxBlksz && RoundUp(SPA_MAXBLOCKSIZE) == SPA_MAXBLOCKSIZE
  {
    assert z.maxBlksz % SPA_MINBLOCKSIZE == 0;
  }

  lemma RoundsUp(n: nat)
    ensures n <= RoundUp(n) && (n <= SPA_MAXBLOCKSIZE ==> RoundUp(n) <= SPA_MAXBLOCKSIZE)
  {
  }

  /** Growing makes room for everything that is to be written. */
  lemma GrownHasRoom(z: Znode, end: nat)
    requires ZnodeOk(z) && RoomFor(z, z.size)
    ensures var z' := z.(blksz := Grown(z, end)); ZnodeOk(z') && RoomFor(z', end)
  {
    LargestSize(z);
    var most := if z.blksz > z.maxBlksz then SPA_MAXBLOCKSIZE else z.maxBlksz;
    RoundsUp(if end < most then end else most);
  }

  /** A writer asks for the whole file exactly when there is no room for what it wants to write. */
  lemma GrowsForRoom(z: Znode, off: nat, len: nat)
    ensures MustGrow(z, off, len) <==> !RoomFor(z, EndSize(z, off, len))
  {
  }

  // ----- in every run -----

  /** A write under a lock of its own range has room. */
  predicate HasRoom(s: Sys, w: Write) {
    w.open && w.h in s.rl.grants && !IsWhole(s.rl.grants[w.h]) ==> RoomFor(s.z, w.at + w.left)
  }

  predicate Roomy(s: Sys) {
    ZnodeOk(s.z) && RoomFor(s.z, s.z.size) && forall i :: 0 <= i < |s.writes| ==> HasRoom(s, s.writes[i])
  }

  lemma BeginRoom(s: Sys, t: Tid, append: bool, off: nat, n: nat, limit: nat)
    requires SysInv(s) && Roomy(s) && Possible(s, Begin(t, append, off, n, limit))
    ensures Roomy(Do(s, Begin(t, append, off, n, limit)))
  {
    var (o, len) := Range(s, append, off, n);
    var s' := Do(s, Begin(t, append, off, n, limit));
    if WriterBlocker(s.rl.tree, o, len) == |s.rl.tree| {
      GrantedRoom(s, s', append, off, n, limit);
    }
  }

  lemma GrantedRoom(s: Sys, s': Sys, append: bool, off: nat, n: nat, limit: nat)
    requires WritesOk(s.rl.grants, s.rl.now, s.z.size, s.writes) && Roomy(s) && s'.z == s.z
    requires var (o, len) := Range(s, append, off, n);
             s'.rl.grants == s.rl.grants[Handle(s.rl.now) := Grant(o, len, Writer)]
    requires s'.writes == s.writes + [NewWrite(s, append, off, n, limit)]
    ensures Roomy(s')
  {
    forall i | 0 <= i < |s'.writes| ensures HasRoom(s', s'.writes[i]) {
      if i < |s.writes| {
        assert HasRoom(s, s.writes[i]) && WriteOk(s.rl.grants, s.rl.now, s.z.size, s.writes[i]);
      } else {
        GrowsForRoom(s.z, WriterOff(s.z, off, append), n);
      }
    }
  }

  /** A chunk is written under a lock of its own range, or after the blocks have grown, when nobody else writes. */
  lemma ChunkRoom(s: Sys, i: nat, k: nat, blksz: nat)
    requires SysInv(s) && Roomy(s) && Possible(s, Chunk(i, k, blksz))
    ensures Roomy(Do(s, Chunk(i, k, blksz)))
  {
    var s', w := Do(s, Chunk(i, k, blksz)), s.writes[i];
    ChunkInsideLock(s, i, k, blksz);
    assert HasRoom(s, w) && WriteOk(s.rl.grants, s.rl.now, s.z.size, w);
    if IsWhole(s.rl.grants[w.h]) {
      GrownHasRoom(s.z, EndSize(s.z, w.at, w.left));
    }
    assert RoomFor(s'.z, w.at + w.left) && RoomFor(s'.z, s.z.size);
    forall j | 0 <= j < |s'.writes| ensures HasRoom(s', s'.writes[j]) {
      if j != i {
        assert HasRoom(s, s.writes[j]) && WriteOk(s.rl.grants, s.rl.now, s.z.size, s.writes[j]);
        assert PairOk(s.writes[if i < j then i else j], s.writes[if i < j then j else i]);
      }
    }
  }

  lemma EndRoom(s: Sys, i: nat)
    requires SysInv(s) && Roomy(s) && Possible(s, End(i))
    ensures Roomy(Do(s, End(i)))
  {
    var s' := Do(s, End(i));
    forall j | 0 <= j < |s'.writes| ensures HasRoom(s', s'.writes[j]) {
      assert HasRoom(s, s.writes[j]);
    }
  }

  lemma OtherRoom(s: Sys, op: Op)
    requires SysInv(s) && Roomy(s) && Possible(s, Other(op))
    ensures Roomy(Do(s, Other(op)))
  {
    var s' := Do(s, Other(op));
    forall j | 0 <= j < |s.writes| ensures HasRoom(s', s.writes[j]) {
      assert HasRoom(s, s.writes[j]) && WriteOk(s.rl.grants, s.rl.now, s.z.size, s.writes[j]);
      if s.writes[j].open {
        ForeignGrants(s.rl, op, s.writes[j].h);
      }
    }
  }

  lemma ActRoom(s: Sys, a: Act)
    requires SysInv(s) && Roomy(s) && Possible(s, a)
    ensures Roomy(Do(s, a))
  {
    match a
    case Begin(t, append, off, n, limit) => BeginRoom(s, t, append, off, n, limit);
    case Chunk(i, k, blksz) => ChunkRoom(s, i, k, blksz);
    case End(i) => EndRoom(s, i);
    case Other(op) => OtherRoom(s, op);
  }

  lemma {:induction false} RunRoom(s: Sys, acts: seq<Act>)
    requires SysInv(s) && Roomy(s) && IsRunOf(s, acts)
    ensures Roomy(Final(s, acts))
    decreases |acts|
  {
    if acts != [] {
      ActRoom(s, acts[0]);
      ActInv(s, acts[0]);
      RunRoom(Do(s, acts[0]), acts[1..]);
    }
  }

  /** From a file that fits, in every run of writes: the file fits into one block while the block size can grow. */
  lemma {:induction false} AlwaysFits(z: Znode, acts: seq<Act>)
    requires ZnodeOk(z) && RoomFor(z, z.size) && IsRunOf(Sys(INIT, z, []), acts)
    ensures var z' := Final(Sys(INIT, z, []), acts).z; z'.size <= z'.blksz || !CanGrow(z')
  {
    InitInv();
    RunRoom(Sys(INIT, z, []), acts);
  }
}
