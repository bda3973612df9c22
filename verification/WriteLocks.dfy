/**
 Concurrent writes to one file under the range lock: the writer takes its lock, perhaps on the whole file because the
 block size must grow, reduces it, and writes chunk by chunk.
 */
module WriteLocks {
  import opened RangeLockModel
  import opened RangeLockInvariant
  import opened RangeLockTheorems
  import opened RangeLockGuarantees
  import WriteModel
  import WriteLog

  /** A write: its lock, where it started, where it goes on, and what is left to do. It has written [start, at). */
  datatype Write = Write(h: Id, append: bool, start: nat, at: nat, left: nat, open: bool)

  datatype Sys = Sys(rl: State, z: Znode, writes: seq<Write>)

  datatype Act =
    | Begin(t: Tid, append: bool, off: nat, n: nat, limit: nat)
    | Chunk(i: nat, k: nat, blksz: nat)
    | End(i: nat)
    | Other(op: Op)

  function Range(s: Sys, append: bool, off: nat, n: nat): (nat, nat) {
    WriterRange(s.z, off, n, append)
  }

  const SPA_MINBLOCKSIZE: nat := 512

  function RoundUp(n: nat): nat {
    n + (SPA_MINBLOCKSIZE - n % SPA_MINBLOCKSIZE) % SPA_MINBLOCKSIZE
  }

  /** The block size after zfs_grow_blocksize, asked for room up to `end`: it does not shrink, and stays as it is once
      the file has more than one block. */
  function Grown(z: Znode, end: nat): nat {
    var most := if z.blksz > z.maxBlksz then WriteModel.SPA_MAXBLOCKSIZE else z.maxBlksz;
    var wanted := if end < most then end else most;
    if wanted <= z.blksz || (z.blksz != 0 && z.size > z.blksz) then z.blksz else RoundUp(wanted)
  }

  /** Readers of the file, and the wakeups that follow an unlock or a reduction. */
  predicate IsForeign(rl: State, op: Op) {
    op.OpLockReader? || op.OpBroadcast? || (op.OpUnlock? && op.h in rl.grants && rl.grants[op.h].kind == Reader)
  }

  predicate Possible(s: Sys, a: Act) {
    match a
    case Begin(t, append, off, n, limit) =>
      && n > 0 && WriterOff(s.z, off, append) + n <= UINT64_MAX
      && Enabled(s.rl, OpLockWriter(t, Range(s, append, off, n).0, Range(s, append, off, n).1))
    case Chunk(i, k, blksz) =>
      && i < |s.writes| && s.writes[i].open && 0 < k <= s.writes[i].left && s.writes[i].h in s.rl.grants
      && (IsWhole(s.rl.grants[s.writes[i].h]) ==> blksz == Grown(s.z, EndSize(s.z, s.writes[i].at, s.writes[i].left)))
    case End(i) => i < |s.writes| && s.writes[i].open && Enabled(s.rl, OpUnlock(s.writes[i].h))
    case Other(op) => IsForeign(s.rl, op) && Enabled(s.rl, op)
  }

  predicate IsWhole(g: Grant) {
    g.len == UINT64_MAX
  }

  /** The lock under which the next chunk is written. */
  function Reduced(rl: State, w: Write): State
    requires w.h in rl.grants
  {
    if IsWhole(rl.grants[w.h]) then Reduce(rl, w.h, w.at, w.left) else rl
  }

  function Do(s: Sys, a: Act): Sys
    requires Possible(s, a)
  {
    match a
    case Begin(t, append, off, n, limit) =>
      var (o, len) := Range(s, append, off, n);
      var woff := WriterOff(s.z, off, append);
      var rl := LockWriter(s.rl, t, o, len);
      if WriterBlocker(s.rl.tree, o, len) < |s.rl.tree| then s.(rl := rl)
      else
        Sys(rl, s.z, s.writes + [Write(Handle(s.rl.now), append, woff, woff, WriteLog.Clip(woff, n, limit), true)])
    case Chunk(i, k, blksz) =>
      var w := s.writes[i];
      var size := if s.z.size < w.at + k then w.at + k else s.z.size;
      Sys(Reduced(s.rl, w),
          s.z.(size := size, blksz := if IsWhole(s.rl.grants[w.h]) then blksz else s.z.blksz),
          s.writes[i := w.(at := w.at + k, left := w.left - k)])
    case End(i) =>
      Sys(Step(s.rl, OpUnlock(s.writes[i].h)), s.z, s.writes[i := s.writes[i].(open := false)])
    case Other(op) => s.(rl := Step(s.rl, op))
  }

  predicate IsRunOf(s: Sys, acts: seq<Act>)
    decreases |acts|
  {
    acts == [] || (Possible(s, acts[0]) && IsRunOf(Do(s, acts[0]), acts[1..]))
  }

  function Final(s: Sys, acts: seq<Act>): Sys
    requires IsRunOf(s, acts)
    decreases |acts|
  {
    if acts == [] then s else Final(Do(s, acts[0]), acts[1..])
  }

  // ----- the invariant -----

  /** An open write has a writer's lock on all that it still has to write. */
  predicate HasLock(grants: map<Id, Grant>, w: Write) {
    && w.h in grants && grants[w.h].kind == Writer && w.at + w.left <= UINT64_MAX
    && (IsWhole(grants[w.h]) ==> grants[w.h].off == 0)
    && (!IsWhole(grants[w.h]) ==> grants[w.h].off <= w.at && w.at + w.left <= grants[w.h].End())
  }

  predicate WriteOk(grants: map<Id, Grant>, now: nat, size: nat, w: Write) {
    && w.start <= w.at && (w.append ==> w.at <= size) && w.h.Handle? && w.h.stamp < now
    && (w.open ==> HasLock(grants, w))
  }

  /** How far a write can still get. */
  function Reach(w: Write): nat {
    if w.open then w.at + w.left else w.at
  }

  predicate PairOk(v: Write, w: Write) {
    v.h != w.h && (v.append && w.append ==> Reach(v) <= w.start)
  }

  predicate WritesOk(grants: map<Id, Grant>, now: nat, size: nat, writes: seq<Write>) {
    forall i :: 0 <= i < |writes| ==> WriteOk(grants, now, size, writes[i])
  }

  predicate PairsOk(writes: seq<Write>) {
    forall i, j :: 0 <= i < j < |writes| ==> PairOk(writes[i], writes[j])
  }

  ghost predicate SysInv(s: Sys) {
    Inv(s.rl) && WritesOk(s.rl.grants, s.rl.now, s.z.size, s.writes) && PairsOk(s.writes)
  }

  // ----- starting a write -----

  /** Whoever could still write holds a lock that a newly granted append stays clear of. */
  lemma AppendBehind(grants: map<Id, Grant>, now: nat, size: nat, v: Write, o: nat, len: nat)
    requires WriteOk(grants, now, size, v) && v.append && GrantsOk(grants, now) && NoGrantOverlaps(grants, o, o + len)
    requires len > 0 && (o == size || (o == 0 && len == UINT64_MAX))
    ensures Reach(v) <= size
  {
  }

  /** Writes do not mind new or vanished locks of others. */
  lemma WriteElsewhere(grants: map<Id, Grant>, grants': map<Id, Grant>, now: nat, now': nat, size: nat, size': nat,
                       w: Write)
    requires WriteOk(grants, now, size, w) && now <= now' && size <= size'
    requires w.open ==> w.h in grants' && grants'[w.h] == grants[w.h]
    ensures WriteOk(grants', now', size', w)
  {
  }

  function NewWrite(s: Sys, append: bool, off: nat, n: nat, limit: nat): Write {
    var woff := WriterOff(s.z, off, append);
    Write(Handle(s.rl.now), append, woff, woff, WriteLog.Clip(woff, n, limit), true)
  }

  lemma NewWriteOk(s: Sys, append: bool, off: nat, n: nat, limit: nat)
    requires n > 0 && WriterOff(s.z, off, append) + n <= UINT64_MAX
    ensures var (o, len) := Range(s, append, off, n);
            WriteOk(s.rl.grants[Handle(s.rl.now) := Grant(o, len, Writer)], s.rl.now + 1, s.z.size,
                    NewWrite(s, append, off, n, limit))
  {
  }

  lemma NewPair(s: Sys, append: bool, off: nat, n: nat, limit: nat, v: Write)
    requires WriteOk(s.rl.grants, s.rl.now, s.z.size, v) && GrantsOk(s.rl.grants, s.rl.now) && n > 0
    requires var (o, len) := Range(s, append, off, n); NoGrantOverlaps(s.rl.grants, o, o + len)
    ensures PairOk(v, NewWrite(s, append, off, n, limit))
  {
    var (o, len) := Range(s, append, off, n);
    if v.append && append {
      AppendBehind(s.rl.grants, s.rl.now, s.z.size, v, o, len);
    }
  }

  lemma {:induction false} BeginInv(s: Sys, t: Tid, append: bool, off: nat, n: nat, limit: nat)
    requires SysInv(s) && Possible(s, Begin(t, append, off, n, limit))
    ensures SysInv(Do(s, Begin(t, append, off, n, limit)))
  {
    var (o, len) := Range(s, append, off, n);
    LockWriterInv(s.rl, t, o, len);
    if WriterBlocker(s.rl.tree, o, len) == |s.rl.tree| {
      WriterAdmission(s.rl, t, o, len);
      GrantedInv(s, append, off, n, limit, o, len);
    }
  }

  lemma GrantedInv(s: Sys, append: bool, off: nat, n: nat, limit: nat, o: nat, len: nat)
    requires WritesOk(s.rl.grants, s.rl.now, s.z.size, s.writes) && PairsOk(s.writes) && GrantsOk(s.rl.grants, s.rl.now)
    requires n > 0 && WriterOff(s.z, off, append) + n <= UINT64_MAX
    requires (o, len) == Range(s, append, off, n) && NoGrantOverlaps(s.rl.grants, o, o + len)
    ensures var writes' := s.writes + [NewWrite(s, append, off, n, limit)];
            && WritesOk(s.rl.grants[Handle(s.rl.now) := Grant(o, len, Writer)], s.rl.now + 1, s.z.size, writes')
            && PairsOk(writes')
  {
    var w := NewWrite(s, append, off, n, limit);
    var writes', grants' := s.writes + [w], s.rl.grants[Handle(s.rl.now) := Grant(o, len, Writer)];
    NewWriteOk(s, append, off, n, limit);
    forall i | 0 <= i < |writes'| ensures WriteOk(grants', s.rl.now + 1, s.z.size, writes'[i]) {
      if i < |s.writes| {
        WriteElsewhere(s.rl.grants, grants', s.rl.now, s.rl.now + 1, s.z.size, s.z.size, s.writes[i]);
      }
    }
    forall i, j | 0 <= i < j < |writes'| ensures PairOk(writes'[i], writes'[j]) {
      if j == |s.writes| {
        NewPair(s, append, off, n, limit, s.writes[i]);
      }
    }
  }

  // ----- writing a chunk -----

  /** The chunk is written under a writer's lock that covers it, and that shuts everybody else out. A lock on the whole
      file is reduced first; it is then the only one. */
  lemma ChunkInsideLock(s: Sys, i: nat, k: nat, blksz: nat)
    requires SysInv(s) && Possible(s, Chunk(i, k, blksz))
    ensures var w, rl := s.writes[i], Reduced(s.rl, s.writes[i]);
            && Inv(rl) && w.h in rl.grants && rl.grants[w.h].kind == Writer
            && rl.grants[w.h].off <= w.at && w.at + w.left <= rl.grants[w.h].End()
            && (forall r :: r in rl.grants && r != w.h ==> Disjoint(rl.grants[w.h], rl.grants[r]))
            && (IsWhole(s.rl.grants[w.h]) ==> |s.rl.tree| == 1 && s.rl.grants.Keys == {w.h})
  {
    var w := s.writes[i];
    assert WriteOk(s.rl.grants, s.rl.now, s.z.size, w);
    if IsWhole(s.rl.grants[w.h]) {
      ReduceInv(s.rl, w.h, w.at, w.left);
      WholeFileAlone(s.rl, w.h);
    }
    var rl := Reduced(s.rl, w);
    forall r | r in rl.grants && r != w.h ensures Disjoint(rl.grants[w.h], rl.grants[r]) {
      Exclusion(rl, w.h, r);
    }
  }

  lemma ChunkInv(s: Sys, i: nat, k: nat, blksz: nat)
    requires SysInv(s) && Possible(s, Chunk(i, k, blksz))
    ensures SysInv(Do(s, Chunk(i, k, blksz)))
  {
    var s', w := Do(s, Chunk(i, k, blksz)), s.writes[i];
    ChunkInsideLock(s, i, k, blksz);
    assert WriteOk(s.rl.grants, s.rl.now, s.z.size, w);
    forall j | 0 <= j < |s'.writes| ensures WriteOk(s'.rl.grants, s'.rl.now, s'.z.size, s'.writes[j]) {
      if j != i {
        assert WriteOk(s.rl.grants, s.rl.now, s.z.size, s.writes[j]);
        assert PairOk(s.writes[if i < j then i else j], s.writes[if i < j then j else i]);
        WriteElsewhere(s.rl.grants, s'.rl.grants, s.rl.now, s'.rl.now, s.z.size, s'.z.size, s.writes[j]);
      }
    }
    UpdatePairs(s.writes, i, s'.writes[i]);
  }

  lemma UpdatePairs(writes: seq<Write>, i: nat, w: Write)
    requires PairsOk(writes) && i < |writes|
    requires w.h == writes[i].h && w.append == writes[i].append && w.start == writes[i].start && Reach(w) <= Reach(writes[i])
    ensures PairsOk(writes[i := w])
  {
    var writes' := writes[i := w];
    forall a, b | 0 <= a < b < |writes'| ensures PairOk(writes'[a], writes'[b]) {
      assert PairOk(writes[a], writes[b]);
    }
  }

  // ----- finishing, and everybody else -----

  lemma EndInv(s: Sys, i: nat)
    requires SysInv(s) && Possible(s, End(i))
    ensures SysInv(Do(s, End(i)))
  {
    var s', w := Do(s, End(i)), s.writes[i];
    StepInv(s.rl, OpUnlock(w.h));
    assert WriteOk(s.rl.grants, s.rl.now, s.z.size, w);
    forall j | 0 <= j < |s'.writes| ensures WriteOk(s'.rl.grants, s'.rl.now, s'.z.size, s'.writes[j]) {
      assert WriteOk(s.rl.grants, s.rl.now, s.z.size, s.writes[j]);
      if j != i {
        assert PairOk(s.writes[if i < j then i else j], s.writes[if i < j then j else i]);
      }
    }
    UpdatePairs(s.writes, i, s'.writes[i]);
  }

  lemma ForeignGrants(rl: State, op: Op, h: Id)
    requires IsForeign(rl, op) && Enabled(rl, op) && h in rl.grants && rl.grants[h].kind == Writer && GrantsOk(rl.grants, rl.now)
    ensures h in Step(rl, op).grants && Step(rl, op).grants[h] == rl.grants[h] && rl.now <= Step(rl, op).now
  {
    if op.OpLockReader? {
      AddReaderGrants(rl, op.off, op.len);
    }
  }

  lemma ForeignNow(rl: State, op: Op)
    requires IsForeign(rl, op) && Enabled(rl, op)
    ensures rl.now <= Step(rl, op).now
  {
  }

  lemma OtherInv(s: Sys, op: Op)
    requires SysInv(s) && Possible(s, Other(op))
    ensures SysInv(Do(s, Other(op)))
  {
    var s' := Do(s, Other(op));
    StepInv(s.rl, op);
    ForeignNow(s.rl, op);
    forall j | 0 <= j < |s.writes| ensures WriteOk(s'.rl.grants, s'.rl.now, s'.z.size, s.writes[j]) {
      assert WriteOk(s.rl.grants, s.rl.now, s.z.size, s.writes[j]);
      if s.writes[j].open {
        ForeignGrants(s.rl, op, s.writes[j].h);
      }
    }
  }

  lemma ActInv(s: Sys, a: Act)
    requires SysInv(s) && Possible(s, a)
    ensures SysInv(Do(s, a))
  {
    match a
    case Begin(t, append, off, n, limit) => BeginInv(s, t, append, off, n, limit);
    case Chunk(i, k, blksz) => ChunkInv(s, i, k, blksz);
    case End(i) => EndInv(s, i);
    case Other(op) => OtherInv(s, op);
  }

  lemma {:induction false} RunOfInv(s: Sys, acts: seq<Act>)
    requires SysInv(s) && IsRunOf(s, acts)
    ensures SysInv(Final(s, acts))
    decreases |acts|
  {
    if acts != [] {
      ActInv(s, acts[0]);
      RunOfInv(Do(s, acts[0]), acts[1..]);
    }
  }

  /** In every run without truncation, what two appends have written does not overlap: the earlier one ends before the
      later one starts. */
  lemma {:induction false} AppendsDisjoint(z: Znode, acts: seq<Act>, i: nat, j: nat)
    requires IsRunOf(Sys(INIT, z, []), acts)
    requires var writes := Final(Sys(INIT, z, []), acts).writes; i < j < |writes| && writes[i].append && writes[j].append
    ensures var writes := Final(Sys(INIT, z, []), acts).writes;
            writes[i].start <= writes[i].at <= writes[j].start <= writes[j].at
  {
    InitInv();
    var s0 := Sys(INIT, z, []);
    RunOfInv(s0, acts);
    var s := Final(s0, acts);
    assert PairOk(s.writes[i], s.writes[j]);
    assert WriteOk(s.rl.grants, s.rl.now, s.z.size, s.writes[i]) && WriteOk(s.rl.grants, s.rl.now, s.z.size, s.writes[j]);
  }

  lemma ChunkLocked(s: Sys, i: nat, k: nat, blksz: nat)
    requires SysInv(s) && Possible(s, Chunk(i, k, blksz))
    ensures var s' := Do(s, Chunk(i, k, blksz));
            var w := s'.writes[i];
            && w.h in s'.rl.grants && s'.rl.grants[w.h].kind == Writer
            && s'.rl.grants[w.h].off <= w.at - k && w.at <= s'.rl.grants[w.h].End()
            && s'.z.size == (if s.z.size < w.at then w.at else s.z.size)
            && forall r :: r in s'.rl.grants && r != w.h ==> Disjoint(s'.rl.grants[w.h], s'.rl.grants[r])
  {
    ChunkInsideLock(s, i, k, blksz);
  }

  /** In every run each chunk is written inside the lock that its writer then has. */
  lemma {:induction false} EveryChunkLocked(z: Znode, acts: seq<Act>, i: nat, k: nat, blksz: nat)
    requires IsRunOf(Sys(INIT, z, []), acts) && Possible(Final(Sys(INIT, z, []), acts), Chunk(i, k, blksz))
    ensures var s := Do(Final(Sys(INIT, z, []), acts), Chunk(i, k, blksz));
            var w := s.writes[i];
            && w.h in s.rl.grants && s.rl.grants[w.h].kind == Writer
            && s.rl.grants[w.h].off <= w.at - k && w.at <= s.rl.grants[w.h].End() && w.at <= s.z.size
            && forall r :: r in s.rl.grants && r != w.h ==> Disjoint(s.rl.grants[w.h], s.rl.grants[r])
  {
    InitInv();
    var s0 := Sys(INIT, z, []);
    RunOfInv(s0, acts);
    ChunkLocked(Final(s0, acts), i, k, blksz);
  }

  lemma InitInv()
    ensures Inv(INIT)
  {
  }
}
