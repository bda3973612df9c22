/**
 A reader's entry says that a writer wants it only while a writer sleeps on it; hence whom a new reader waits for.
 */
module RangeLockFlags {
  import opened RangeLockModel
  import opened RangeLockInvariant
  import opened RangeLockReader
  import opened RangeLockRelease
  import opened RangeLockTheorems
  import opened RangeLockGuarantees

  // ----- every flag has its writer -----

  ghost predicate HasWriter(sleepers: map<Tid, Sleep>, id: Id) {
    exists t :: t in sleepers && sleepers[t].entry == id && sleepers[t].want == WantWrite
  }

  ghost predicate FlagOk(e: Entry, sleepers: map<Tid, Sleep>) {
    e.kind == Reader && e.writeWanted ==> HasWriter(sleepers, e.id)
  }

  ghost predicate FlagsOk(tree: seq<Entry>, sleepers: map<Tid, Sleep>) {
    tree == [] || (FlagOk(tree[0], sleepers) && FlagsOk(tree[1..], sleepers))
  }

  /** Only writers broadcast after they have left the critical section. */
  ghost predicate PendingWriters(pending: set<Id>, grants: map<Id, Grant>) {
    forall h :: h in pending && h in grants ==> grants[h].kind == Writer
  }

  ghost predicate FlagInv(s: State) {
    FlagsOk(s.tree, s.sleepers) && PendingWriters(s.pending, s.grants)
  }

  // ----- steps that change the tree -----

  lemma {:induction false} WalkFlags(rest: seq<Entry>, pos: nat, end: nat, now: nat, sleepers: map<Tid, Sleep>)
    requires FlagsOk(rest, sleepers)
    ensures FlagsOk(Walk(rest, pos, end, now), sleepers)
    decreases |rest|
  {
    if rest != [] && rest[0].off < end {
      if end < rest[0].End() {
        assert FlagsOk([Rear(rest[0], end, now)] + rest[1..], sleepers);
      } else {
        WalkFlags(rest[1..], rest[0].End(), end, now, sleepers);
      }
      assert FlagsOk(WalkEntry(rest, end, now), sleepers);
    }
  }

  lemma {:induction false} CutFlags(tree: seq<Entry>, off: nat, now: nat, sleepers: map<Tid, Sleep>)
    requires FlagsOk(tree, sleepers)
    ensures FlagsOk(Cut(tree, off, now), sleepers)
  {
    if tree != [] && tree[0].off < off {
      if off < tree[0].End() {
        assert FlagsOk([Rear(tree[0], off, now)] + tree[1..], sleepers);
      } else {
        CutFlags(tree[1..], off, now, sleepers);
      }
    }
  }

  lemma {:induction false} BumpFlags(tree: seq<Entry>, off: nat, end: nat, now: nat, sleepers: map<Tid, Sleep>)
    requires FlagsOk(tree, sleepers)
    ensures FlagsOk(Bump(tree, off, end, now), sleepers)
  {
    if tree != [] && tree[0].off < off {
      BumpFlags(tree[1..], off, end, now, sleepers);
    } else {
      WalkFlags(tree, off, end, now, sleepers);
    }
  }

  lemma {:induction false} InsertFlags(tree: seq<Entry>, e: Entry, sleepers: map<Tid, Sleep>)
    requires FlagsOk(tree, sleepers) && FlagOk(e, sleepers)
    ensures FlagsOk(Insert(tree, e), sleepers)
  {
    if tree != [] && tree[0].off < e.off {
      InsertFlags(tree[1..], e, sleepers);
    }
  }

  /** Another thread goes to sleep. */
  lemma {:induction false} SleepFlags(tree: seq<Entry>, i: nat, sleepers: map<Tid, Sleep>, t: Tid, w: Sleep)
    requires FlagsOk(tree, sleepers) && i <= |tree| && t !in sleepers && (i < |tree| ==> w.entry == tree[i].id)
    ensures FlagsOk(if i < |tree| then SetWanted(tree, i, w.want) else tree, sleepers[t := w])
    decreases |tree|
  {
    var sleepers' := sleepers[t := w];
    if tree != [] {
      forall id | HasWriter(sleepers, id) ensures HasWriter(sleepers', id) {
        var u :| u in sleepers && sleepers[u].entry == id && sleepers[u].want == WantWrite;
        assert u in sleepers' && sleepers'[u] == sleepers[u];
      }
      if i == 0 {
        assert t in sleepers' && sleepers'[t] == w;
        SleepFlags(tree[1..], |tree| - 1, sleepers, t, w);
        assert SetWanted(tree, 0, w.want)[1..] == tree[1..];
      } else {
        SleepFlags(tree[1..], i - 1, sleepers, t, w);
        assert i < |tree| ==> SetWanted(tree, i, w.want)[1..] == SetWanted(tree[1..], i - 1, w.want);
      }
    }
  }

  // ----- releasing: an entry that stays keeps its sleepers -----

  /** Where the entry with this identity starts. */
  ghost function OffOf(grants: map<Id, Grant>, id: Id): nat {
    if id.Proxy? then id.at else if id in grants then grants[id].off else 0
  }

  ghost predicate AllFrom(ids: set<Id>, grants: map<Id, Grant>, lo: nat) {
    forall id :: id in ids ==> lo <= OffOf(grants, id)
  }

  ghost predicate NoneIn(tree: seq<Entry>, ids: set<Id>) {
    tree == [] || (tree[0].id !in ids && NoneIn(tree[1..], ids))
  }

  lemma {:induction false} ReleasedFrom(rest: seq<Entry>, lo: nat, len: nat, grants: map<Id, Grant>, n: nat)
    requires SortedFrom(rest, lo) && AllGood(rest, grants, n)
    ensures AllFrom(Released(rest, len), grants, lo)
    decreases |rest|
  {
    if rest != [] && len != 0 && rest[0].len <= len {
      ReleasedFrom(rest[1..], rest[0].End(), len - rest[0].len, grants, n);
      assert OffOf(grants, rest[0].id) == rest[0].off;
    }
  }

  /** Entries that start later are not among these. */
  lemma {:induction false} LaterApart(tree: seq<Entry>, lo: nat, grants: map<Id, Grant>, n: nat, ids: set<Id>)
    requires SortedFrom(tree, lo) && AllGood(tree, grants, n) && forall id :: id in ids ==> OffOf(grants, id) < lo
    ensures NoneIn(tree, ids)
  {
    if tree != [] {
      assert OffOf(grants, tree[0].id) == tree[0].off;
      LaterApart(tree[1..], tree[0].End(), grants, n, ids);
    }
  }

  /** The entries that stay are not among the released ones, nor any that start before them. */
  lemma {:induction false} KeptApart(rest: seq<Entry>, lo: nat, len: nat, grants: map<Id, Grant>, n: nat, ids: set<Id>)
    requires SortedFrom(rest, lo) && AllGood(rest, grants, n)
    requires forall id :: id in ids ==> OffOf(grants, id) < lo
    ensures NoneIn(Release(rest, len), ids + Released(rest, len))
    decreases |rest|
  {
    if rest == [] || len == 0 || len < rest[0].len {
      LaterApart(rest, lo, grants, n, ids);
      assert ids + {} == ids;
    } else {
      var e := rest[0];
      assert OffOf(grants, e.id) == e.off;
      ReleasedFrom(rest[1..], e.End(), len - e.len, grants, n);
      var more := ids + if e.cnt <= 1 then {e.id} else {};
      KeptApart(rest[1..], e.End(), len - e.len, grants, n, more);
      assert more + Released(rest[1..], len - e.len) == ids + Released(rest, len);
    }
  }

  lemma {:induction false} ReleasedAtFrom(tree: seq<Entry>, lo: nat, off: nat, len: nat, grants: map<Id, Grant>, n: nat)
    requires SortedFrom(tree, lo) && AllGood(tree, grants, n)
    ensures AllFrom(ReleasedAt(tree, off, len), grants, lo)
  {
    if tree != [] && tree[0].off < off {
      ReleasedAtFrom(tree[1..], tree[0].End(), off, len, grants, n);
    } else {
      ReleasedFrom(tree, lo, len, grants, n);
    }
  }

  lemma {:induction false} KeptAtApart(tree: seq<Entry>, lo: nat, off: nat, len: nat, grants: map<Id, Grant>, n: nat)
    requires SortedFrom(tree, lo) && AllGood(tree, grants, n)
    ensures NoneIn(ReleaseAt(tree, off, len), ReleasedAt(tree, off, len))
  {
    if tree != [] && tree[0].off < off {
      ReleasedAtFrom(tree[1..], tree[0].End(), off, len, grants, n);
      KeptAtApart(tree[1..], tree[0].End(), off, len, grants, n);
      assert OffOf(grants, tree[0].id) == tree[0].off;
    } else {
      KeptApart(tree, lo, len, grants, n, {});
      assert {} + Released(tree, len) == Released(tree, len);
    }
  }

  lemma {:induction false} ReleaseFlags(rest: seq<Entry>, len: nat, sleepers: map<Tid, Sleep>)
    requires FlagsOk(rest, sleepers)
    ensures FlagsOk(Release(rest, len), sleepers)
    decreases |rest|
  {
    if rest != [] && len != 0 && rest[0].len <= len {
      ReleaseFlags(rest[1..], len - rest[0].len, sleepers);
    }
  }

  lemma {:induction false} ReleaseAtFlags(tree: seq<Entry>, off: nat, len: nat, sleepers: map<Tid, Sleep>)
    requires FlagsOk(tree, sleepers)
    ensures FlagsOk(ReleaseAt(tree, off, len), sleepers)
  {
    if tree != [] && tree[0].off < off {
      ReleaseAtFlags(tree[1..], off, len, sleepers);
    } else {
      ReleaseFlags(tree, len, sleepers);
    }
  }

  lemma {:induction false} AwakeFlags(tree: seq<Entry>, sleepers: map<Tid, Sleep>, gone: set<Id>)
    requires FlagsOk(tree, sleepers) && NoneIn(tree, gone)
    ensures FlagsOk(tree, Awake(sleepers, gone))
  {
    if tree != [] {
      AwakeFlags(tree[1..], sleepers, gone);
      if HasWriter(sleepers, tree[0].id) {
        var u :| u in sleepers && sleepers[u].entry == tree[0].id && sleepers[u].want == WantWrite;
        assert u in Awake(sleepers, gone) && Awake(sleepers, gone)[u] == sleepers[u];
      }
    }
  }

  /** A broadcast wakes nobody who sleeps on a reader's entry. */
  lemma {:induction false} BroadcastFlags(tree: seq<Entry>, grants: map<Id, Grant>, n: nat, sleepers: map<Tid, Sleep>,
                                          h: Id)
    requires FlagsOk(tree, sleepers) && AllGood(tree, grants, n) && h.Handle? && (h in grants ==> grants[h].kind == Writer)
    ensures FlagsOk(tree, Awake(sleepers, {h}))
  {
    if tree != [] {
      BroadcastFlags(tree[1..], grants, n, sleepers, h);
      if tree[0].kind == Reader && tree[0].writeWanted {
        var u :| u in sleepers && sleepers[u].entry == tree[0].id && sleepers[u].want == WantWrite;
        assert u in Awake(sleepers, {h}) && Awake(sleepers, {h})[u] == sleepers[u];
      }
    }
  }

  // ----- every state of every run -----

  lemma LockReaderFlags(s: State, t: Tid, off: nat, len: nat)
    requires Inv(s) && FlagInv(s) && Enabled(s, OpLockReader(t, off, len))
    ensures FlagInv(LockReader(s, t, off, len))
  {
    var i := ReaderBlocker(s.tree, off, len);
    if i < |s.tree| {
      SleepFlags(s.tree, i, s.sleepers, t, Sleep(s.tree[i].id, WantRead, off, len));
    } else {
      CutFlags(s.tree, off, s.now, s.sleepers);
      BumpFlags(Cut(s.tree, off, s.now), off, off + len, s.now, s.sleepers);
      InsertFlags(s.tree, Entry(Handle(s.now), off, len, 1, Reader, false, false), s.sleepers);
    }
  }

  lemma LockWriterFlags(s: State, t: Tid, off: nat, len: nat)
    requires Inv(s) && FlagInv(s) && Enabled(s, OpLockWriter(t, off, len))
    ensures FlagInv(LockWriter(s, t, off, len))
  {
    var i := WriterBlocker(s.tree, off, len);
    if i < |s.tree| {
      SleepFlags(s.tree, i, s.sleepers, t, Sleep(s.tree[i].id, WantWrite, off, len));
    } else {
      InsertFlags(s.tree, Entry(Handle(s.now), off, len, 1, Writer, false, false), s.sleepers);
    }
  }

  lemma UnlockFlags(s: State, h: Id)
    requires Inv(s) && FlagInv(s) && Enabled(s, OpUnlock(h))
    ensures FlagInv(Step(s, OpUnlock(h)))
  {
    var off, len := s.grants[h].off, s.grants[h].len;
    ReleaseAtFlags(s.tree, off, len, s.sleepers);
    if s.grants[h].kind == Reader {
      KeptAtApart(s.tree, 0, off, len, s.grants, s.now);
      AwakeFlags(ReleaseAt(s.tree, off, len), s.sleepers, ReleasedAt(s.tree, off, len));
    }
  }

  lemma StepFlags(s: State, op: Op)
    requires Inv(s) && FlagInv(s) && Enabled(s, op)
    ensures FlagInv(Step(s, op))
  {
    match op
    case OpLockReader(t, off, len) => LockReaderFlags(s, t, off, len);
    case OpLockWriter(t, off, len) => LockWriterFlags(s, t, off, len);
    case OpUnlock(h) => UnlockFlags(s, h);
    case OpReduce(h, off, len) =>
      ReduceInv(s, h, off, len);
      WholeFileAlone(s, h);
      assert [s.tree[0].(off := off, len := len)][1..] == [];
    case OpBroadcast(h) => BroadcastFlags(s.tree, s.grants, s.now, s.sleepers, h);
  }

  lemma {:induction false} RunFlags(states: seq<State>, ops: seq<Op>, i: nat)
    requires IsRun(states, ops) && i < |states|
    ensures FlagInv(states[i])
    decreases i
  {
    if i > 0 {
      RunFlags(states, ops, i - 1);
      RunInv(states, ops, i - 1);
      assert Follows(states[i - 1], ops[i - 1], states[i - 1 + 1]);
      StepFlags(states[i - 1], ops[i - 1]);
    }
  }

  // ----- whom a reader waits for -----

  ghost predicate WriterHolds(s: State, off: nat, len: nat) {
    exists h :: h in s.grants && s.grants[h].kind == Writer && !Disjoint(s.grants[h], Grant(off, len, Reader))
  }

  /** A writer sleeps on an entry that overlaps the range. */
  ghost predicate WriterWaits(s: State, off: nat, len: nat) {
    exists t, e :: t in s.sleepers && s.sleepers[t].want == WantWrite && e in s.tree && Waits(e, s.sleepers[t])
                   && e.Overlaps(off, off + len)
  }

  lemma {:induction false} BlockedAt(tree: seq<Entry>, off: nat, len: nat, i: nat)
    requires i < |tree| && BlocksReader(tree[i], off, len)
    ensures ReaderBlocker(tree, off, len) < |tree|
  {
  }

  lemma {:induction false} FlagAt(tree: seq<Entry>, sleepers: map<Tid, Sleep>, grants: map<Id, Grant>, n: nat, i: nat)
    requires FlagsOk(tree, sleepers) && AllGood(tree, grants, n) && i < |tree|
    ensures FlagOk(tree[i], sleepers) && Good(tree[i], grants, n)
  {
    if 0 < i {
      FlagAt(tree[1..], sleepers, grants, n, i - 1);
    }
  }

  /** Two entries with the same identity are the same. */
  lemma {:induction false} SameEntry(tree: seq<Entry>, lo: nat, grants: map<Id, Grant>, n: nat, i: nat, j: nat)
    requires SortedFrom(tree, lo) && AllGood(tree, grants, n) && i < |tree| && j < |tree| && tree[i].id == tree[j].id
    ensures i == j && lo <= OffOf(grants, tree[i].id)
  {
    if i == 0 || j == 0 {
      if i != j {
        LaterOff(tree[1..], tree[0].End(), grants, n, if i == 0 then j - 1 else i - 1);
      }
    } else {
      SameEntry(tree[1..], tree[0].End(), grants, n, i - 1, j - 1);
    }
  }

  lemma {:induction false} LaterOff(tree: seq<Entry>, lo: nat, grants: map<Id, Grant>, n: nat, i: nat)
    requires SortedFrom(tree, lo) && AllGood(tree, grants, n) && i < |tree|
    ensures lo <= OffOf(grants, tree[i].id) == tree[i].off
  {
    if 0 < i {
      LaterOff(tree[1..], tree[0].End(), grants, n, i - 1);
    }
  }

  /** The writer that flagged a reader's entry sleeps on it and wants a range that it overlaps. */
  lemma FlaggedHasWaiter(s: State, i: nat) returns (t: Tid)
    requires Inv(s) && FlagInv(s) && i < |s.tree| && s.tree[i].kind == Reader && s.tree[i].writeWanted
    ensures t in s.sleepers && s.sleepers[t].want == WantWrite && Waits(s.tree[i], s.sleepers[t])
  {
    FlagAt(s.tree, s.sleepers, s.grants, s.now, i);
    t :| t in s.sleepers && s.sleepers[t].entry == s.tree[i].id && s.sleepers[t].want == WantWrite;
    assert s.sleepers[t].entry !in s.pending;
    var j := HolderOf(s.tree, s.grants, s.now, s.sleepers[t]);
    SameEntry(s.tree, 0, s.grants, s.now, i, j);
  }

  /** A reader has to wait exactly when a writer holds part of its range, or sleeps on an entry that overlaps it. */
  lemma ReaderAdmission(s: State, off: nat, len: nat)
    requires Inv(s) && FlagInv(s) && InBounds(off, len)
    ensures ReaderBlocker(s.tree, off, len) < |s.tree| <==> WriterHolds(s, off, len) || WriterWaits(s, off, len)
  {
    var i := ReaderBlocker(s.tree, off, len);
    if i < |s.tree| {
      FlagAt(s.tree, s.sleepers, s.grants, s.now, i);
      if s.tree[i].kind == Writer {
        assert !Disjoint(s.grants[s.tree[i].id], Grant(off, len, Reader));
      } else {
        var t := FlaggedHasWaiter(s, i);
        assert s.tree[i] in s.tree;
      }
    } else {
      ReaderWaitsForWriters(s, off, len);
    }
    if WriterWaits(s, off, len) {
      var t, e :| t in s.sleepers && s.sleepers[t].want == WantWrite && e in s.tree && Waits(e, s.sleepers[t])
                  && e.Overlaps(off, off + len);
      var j :| 0 <= j < |s.tree| && s.tree[j] == e;
      assert BlocksReader(s.tree[j], off, len);
      BlockedAt(s.tree, off, len, j);
    }
  }

  /** So it is in every state of every run. */
  lemma ReadersWaitForWriters(states: seq<State>, ops: seq<Op>, i: nat, off: nat, len: nat)
    requires IsRun(states, ops) && i < |states| && InBounds(off, len)
    ensures var s := states[i];
            ReaderBlocker(s.tree, off, len) < |s.tree| <==> WriterHolds(s, off, len) || WriterWaits(s, off, len)
  {
    RunInv(states, ops, i);
    RunFlags(states, ops, i);
    ReaderAdmission(states[i], off, len);
  }
}
