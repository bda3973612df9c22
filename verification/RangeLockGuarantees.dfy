/**
 What the range lock guarantees to its callers, in every state that a run can reach.
 */
module RangeLockGuarantees {
  import opened RangeLockModel
  import opened RangeLockInvariant
  import opened RangeLockReader
  import opened RangeLockRelease
  import opened RangeLockTheorems

  // ----- exclusion -----

  predicate Disjoint(a: Grant, b: Grant) {
    a.End() <= b.off || b.End() <= a.off
  }

  /** A byte held by a writer is held by nobody else. */
  lemma Exclusion(s: State, w: Id, r: Id)
    requires Inv(s) && w in s.grants && r in s.grants && w != r && s.grants[w].kind == Writer
    ensures Disjoint(s.grants[w], s.grants[r])
  {
    WriterInTree(s, w);
    if s.grants[r].kind == Writer {
      WriterInTree(s, r);
      EntriesApart(s.tree, 0, s.grants, s.now, w, r);
    } else {
      var a, b := s.grants[w], s.grants[r];
      if a.off < b.End() && b.off < a.End() {
        WriterUnread(s.tree, 0, s.grants, s.now, w, r, if a.off < b.off then b.off else a.off);
      }
    }
  }

  lemma {:induction false} EntriesApart(tree: seq<Entry>, lo: nat, grants: map<Id, Grant>, n: nat, a: Id, b: Id)
    requires SortedFrom(tree, lo) && AllGood(tree, grants, n) && HasId(tree, a) && HasId(tree, b) && a != b
    requires a.Handle? && b.Handle?
    ensures a in grants && b in grants && Disjoint(grants[a], grants[b])
  {
    if tree[0].id == a {
      HandleAt(tree[1..], tree[0].End(), grants, n, b);
    } else if tree[0].id == b {
      HandleAt(tree[1..], tree[0].End(), grants, n, a);
    } else {
      EntriesApart(tree[1..], tree[0].End(), grants, n, a, b);
    }
  }

  // ----- admission: the entries speak for the grants -----

  ghost predicate NoGrantOverlaps(grants: map<Id, Grant>, lo: nat, hi: nat) {
    forall h :: h in grants ==> grants[h].End() <= lo || hi <= grants[h].off
  }

  lemma {:induction false} ClearOfGrants(tree: seq<Entry>, grants: map<Id, Grant>, n: nat, lo: nat, hi: nat)
    requires AllGood(tree, grants, n) && NoGrantOverlaps(grants, lo, hi)
    ensures Clear(tree, lo, hi)
  {
    if tree != [] {
      ClearOfGrants(tree[1..], grants, n, lo, hi);
      if tree[0].kind == Reader {
        var r :| r in Cover(grants, tree[0].off, tree[0].End());
        assert grants[r].off <= tree[0].off && tree[0].End() <= grants[r].End();
      }
    }
  }

  lemma {:induction false} ClearOfHandle(tree: seq<Entry>, grants: map<Id, Grant>, n: nat, lo: nat, hi: nat, h: Id)
    requires AllGood(tree, grants, n) && Clear(tree, lo, hi) && HasId(tree, h) && h in grants && h.Handle?
    ensures grants[h].End() <= lo || hi <= grants[h].off
  {
    if tree[0].id != h {
      ClearOfHandle(tree[1..], grants, n, lo, hi, h);
    }
  }

  /** A writer gets its range at once exactly when no granted range overlaps it. */
  lemma WriterAdmission(s: State, t: Tid, off: nat, len: nat)
    requires Inv(s) && InBounds(off, len)
    ensures t in LockWriter(s, t, off, len).sleepers && t !in s.sleepers ==> !NoGrantOverlaps(s.grants, off, off + len)
    ensures WriterBlocker(s.tree, off, len) == |s.tree| <==> NoGrantOverlaps(s.grants, off, off + len)
  {
    NeighboursSuffice(s.tree, 0, off, len);
    if NoGrantOverlaps(s.grants, off, off + len) {
      ClearOfGrants(s.tree, s.grants, s.now, off, off + len);
    }
    if Clear(s.tree, off, off + len) {
      forall h | h in s.grants ensures s.grants[h].End() <= off || off + len <= s.grants[h].off {
        ClearMeansUnread(s.tree, s.grants, off, off + len);
        assert h !in Cover(s.grants, off, off + len);
        if s.grants[h].kind == Writer {
          WriterInTree(s, h);
          ClearOfHandle(s.tree, s.grants, s.now, off, off + len, h);
        }
      }
    }
  }

  /** A reader that waits does so because a writer holds part of the range or waits for part of it. */
  lemma {:induction false} ReaderWaitsForWriters(s: State, off: nat, len: nat)
    requires Inv(s) && InBounds(off, len)
    ensures var i := ReaderBlocker(s.tree, off, len);
            i < |s.tree| ==> s.tree[i].Overlaps(off, off + len) && (s.tree[i].kind == Writer || s.tree[i].writeWanted)
    ensures ReaderBlocker(s.tree, off, len) == |s.tree| ==>
              forall w :: w in s.grants && s.grants[w].kind == Writer ==> Disjoint(s.grants[w], Grant(off, len, Reader))
  {
    AdmitsBlocker(s.tree, off, len);
    if Admits(s.tree, off, len) {
      forall w | w in s.grants && s.grants[w].kind == Writer ensures Disjoint(s.grants[w], Grant(off, len, Reader)) {
        WriterInTree(s, w);
        AdmittedApart(s.tree, s.grants, s.now, off, len, w);
      }
    }
  }

  lemma {:induction false} AdmittedApart(tree: seq<Entry>, grants: map<Id, Grant>, n: nat, off: nat, len: nat, w: Id)
    requires AllGood(tree, grants, n) && Admits(tree, off, len) && HasId(tree, w) && w in grants && w.Handle?
    requires grants[w].kind == Writer
    ensures Disjoint(grants[w], Grant(off, len, Reader))
  {
    if tree[0].id != w {
      AdmittedApart(tree[1..], grants, n, off, len, w);
    }
  }

  // ----- reference counts -----

  /** The reference count the tree records for byte `b`. */
  function CountAt(tree: seq<Entry>, b: nat): nat {
    if tree == [] then 0
    else if tree[0].off <= b < tree[0].End() then if tree[0].kind == Reader then tree[0].cnt else 0
    else CountAt(tree[1..], b)
  }

  ghost function ReadersAt(grants: map<Id, Grant>, b: nat): set<Id> {
    set h | h in grants && grants[h].kind == Reader && grants[h].off <= b < grants[h].End()
  }

  /** Every byte's reference count is the number of readers that hold it. */
  lemma {:induction false} CountsAreExact(s: State, b: nat)
    requires Inv(s)
    ensures CountAt(s.tree, b) == |ReadersAt(s.grants, b)|
  {
    if Covers(s.tree, b) {
      CountWhereCovered(s.tree, s.grants, s.now, b);
    } else {
      CountWhereNot(s.tree, b);
      if r :| r in ReadersAt(s.grants, b) {
        assert false;
      }
    }
  }

  lemma {:induction false} CountWhereCovered(tree: seq<Entry>, grants: map<Id, Grant>, n: nat, b: nat)
    requires AllGood(tree, grants, n) && Covers(tree, b)
    ensures CountAt(tree, b) == |ReadersAt(grants, b)|
  {
    if tree[0].off <= b < tree[0].End() {
      CoverOfPart(grants, tree[0].off, tree[0].End(), b, b + 1);
      assert ReadersAt(grants, b) == Cover(grants, b, b + 1);
    } else {
      CountWhereCovered(tree[1..], grants, n, b);
    }
  }

  lemma {:induction false} CountWhereNot(tree: seq<Entry>, b: nat)
    requires !Covers(tree, b)
    ensures CountAt(tree, b) == 0
  {
    if tree != [] {
      CountWhereNot(tree[1..], b);
    }
  }

  /** Unlocking takes exactly this reader away from the counts of exactly its bytes. */
  lemma {:induction false} UnlockSubtracts(s: State, h: Id, b: nat)
    requires Inv(s) && h in s.grants && s.grants[h].kind == Reader
    ensures var g := s.grants[h];
            CountAt(UnlockReader(s, h).tree, b) == CountAt(s.tree, b) - if g.off <= b < g.End() then 1 else 0
  {
    UnlockReaderInv(s, h);
    OneReaderMore(UnlockReader(s, h), s, h, b);
  }

  /** Locking adds exactly one reader to the counts of exactly its bytes. */
  lemma {:induction false} LockAdds(s: State, off: nat, len: nat, b: nat)
    requires Inv(s) && InBounds(off, len) && ReaderBlocker(s.tree, off, len) == |s.tree|
    ensures CountAt(AddReader(s, off, len).tree, b) == CountAt(s.tree, b) + if off <= b < off + len then 1 else 0
  {
    AdmitsBlocker(s.tree, off, len);
    AddReaderInv(s, off, len);
    FreshHandle(s.tree, s.grants, s.now);
    AddReaderGrants(s, off, len);
    OneReaderMore(s, AddReader(s, off, len), Handle(s.now), b);
  }

  lemma AddReaderGrants(s: State, off: nat, len: nat)
    ensures AddReader(s, off, len).grants == s.grants[Handle(s.now) := Grant(off, len, Reader)]
  {
  }

  lemma {:induction false} OneReaderMore(s: State, s': State, h: Id, b: nat)
    requires Inv(s) && Inv(s') && h in s'.grants && s'.grants[h].kind == Reader
    requires h !in s.grants && s.grants == s'.grants - {h}
    ensures CountAt(s'.tree, b) ==
            CountAt(s.tree, b) + if s'.grants[h].off <= b < s'.grants[h].End() then 1 else 0
  {
    CountsAreExact(s, b);
    CountsAreExact(s', b);
    assert ReadersAt(s.grants, b) == ReadersAt(s'.grants, b) - {h};
  }

  // ----- tiling -----

  /** [pos, end) is an unbroken row of shared entries whose boundaries fall on `pos` and `end`. */
  predicate Tiled(rest: seq<Entry>, pos: nat, end: nat)
    decreases |rest|
  {
    pos == end ||
    (rest != [] && rest[0].off == pos && rest[0].kind == Reader && 0 < rest[0].cnt && pos < rest[0].End() <= end &&
     Tiled(rest[1..], rest[0].End(), end))
  }

  predicate TiledFrom(tree: seq<Entry>, off: nat, end: nat) {
    if tree != [] && tree[0].off < off then TiledFrom(tree[1..], off, end) else Tiled(tree, off, end)
  }

  lemma {:induction false} TiledTail(rest: seq<Entry>, pos: nat, grants: map<Id, Grant>, n: nat, h: Id)
    requires ReleasePre(rest, pos, grants, n, h)
    ensures Tiled(rest, pos, grants[h].End())
    decreases |rest|
  {
    if pos < grants[h].End() {
      NextTile(rest, pos, grants, n, h);
      TiledTail(rest[1..], rest[0].End(), grants, n, h);
    }
  }

  lemma {:induction false} TiledReader(tree: seq<Entry>, lo: nat, grants: map<Id, Grant>, n: nat, h: Id)
    requires ReleaseAtPre(tree, lo, grants, n, h)
    ensures TiledFrom(tree, grants[h].off, grants[h].End())
  {
    StartTile(tree, lo, grants, n, h);
    if tree != [] && tree[0].off < grants[h].off {
      TiledReader(tree[1..], tree[0].End(), grants, n, h);
    } else {
      TiledTail(tree, grants[h].off, grants, n, h);
    }
  }

  /** Every granted reader is exactly tiled, so the unlock walk ends exactly where the range ends. */
  lemma ReadersAreTiled(s: State, h: Id)
    requires Inv(s) && h in s.grants && s.grants[h].kind == Reader
    ensures TiledFrom(s.tree, s.grants[h].off, s.grants[h].End())
  {
    TiledReader(s.tree, 0, s.grants, s.now, h);
  }

  // ----- wakeups -----

  /** The entry a sleeper waits on overlaps what it wants, and lies inside a range that is still granted to somebody. */
  ghost predicate HeldBySomebody(s: State, w: Sleep) {
    exists e, h :: e in s.tree && Waits(e, w)
                   && h in s.grants && s.grants[h].off <= e.off && e.End() <= s.grants[h].End()
  }

  lemma SleeperHasHolder(s: State, t: Tid)
    requires Inv(s) && t in s.sleepers
    ensures s.sleepers[t].entry in s.pending || HeldBySomebody(s, s.sleepers[t])
  {
    if s.sleepers[t].entry !in s.pending {
      var i := HolderOf(s.tree, s.grants, s.now, s.sleepers[t]);
      var e := s.tree[i];
      assert e in s.tree;
      if e.kind == Reader {
        var r :| r in Cover(s.grants, e.off, e.End());
        assert r in s.grants && s.grants[r].off <= e.off && e.End() <= s.grants[r].End();
      } else {
        assert e.id in s.grants && s.grants[e.id].off <= e.off && e.End() <= s.grants[e.id].End();
      }
    }
  }

  lemma {:induction false} HolderOf(tree: seq<Entry>, grants: map<Id, Grant>, n: nat, w: Sleep) returns (i: nat)
    requires AllGood(tree, grants, n) && WaitsOn(tree, w)
    ensures i < |tree| && Waits(tree[i], w) && Good(tree[i], grants, n)
  {
    if Waits(tree[0], w) {
      i := 0;
    } else {
      var j := HolderOf(tree[1..], grants, n, w);
      i := j + 1;
    }
  }

  /** Would the thread have to wait if it tried again now? */
  predicate StillBlocked(s: State, w: Sleep) {
    if w.want == WantWrite then WriterBlocker(s.tree, w.off, w.len) < |s.tree|
    else ReaderBlocker(s.tree, w.off, w.len) < |s.tree|
  }

  lemma {:induction false} NotClearAt(tree: seq<Entry>, lo: nat, hi: nat, i: nat)
    requires i < |tree| && tree[i].Overlaps(lo, hi)
    ensures !Clear(tree, lo, hi)
  {
    if 0 < i {
      NotClearAt(tree[1..], lo, hi, i - 1);
    }
  }

  /** Nobody sleeps for nothing: a thread that is not about to be woken could not have its range now. */
  lemma NoNeedlessSleep(s: State, t: Tid)
    requires Inv(s) && t in s.sleepers && s.sleepers[t].entry !in s.pending
    ensures StillBlocked(s, s.sleepers[t])
  {
    var w := s.sleepers[t];
    var i := HolderOf(s.tree, s.grants, s.now, w);
    if w.want == WantWrite {
      NotClearAt(s.tree, w.off, w.off + w.len, i);
      NeighboursSuffice(s.tree, 0, w.off, w.len);
    } else {
      assert BlocksReader(s.tree[i], w.off, w.len);
    }
  }

  lemma {:induction false} AdmittedQuiet(tree: seq<Entry>, grants: map<Id, Grant>, n: nat, off: nat, len: nat,
                                         i: nat, want: Want)
    requires AllGood(tree, grants, n) && Admits(tree, off, len) && i < |tree| && tree[i].Overlaps(off, off + len)
    ensures !Flagged(tree[i], want)
    decreases i
  {
    if 0 < i {
      AdmittedQuiet(tree[1..], grants, n, off, len, i - 1, want);
    }
  }

  /** Nobody sleeps on an entry that an admitted reader turns into proxies or splits: what it overlaps is not waited
      for, because a read wanted on a reader's entry implies a write wanted, and that keeps readers out. */
  lemma NobodySleepsOnChanged(s: State, off: nat, len: nat, t: Tid)
    requires Inv(s) && InBounds(off, len) && ReaderBlocker(s.tree, off, len) == |s.tree|
    requires t in s.sleepers && s.sleepers[t].entry !in s.pending
    ensures exists e :: e in s.tree && Waits(e, s.sleepers[t]) && !e.Overlaps(off, off + len)
  {
    AdmitsBlocker(s.tree, off, len);
    var i := HolderOf(s.tree, s.grants, s.now, s.sleepers[t]);
    assert s.tree[i] in s.tree;
    if s.tree[i].Overlaps(off, off + len) {
      AdmittedQuiet(s.tree, s.grants, s.now, off, len, i, s.sleepers[t].want);
    }
  }

  /** Once every lock is released and every broadcast is out, nobody sleeps. */
  lemma NobodyForgotten(states: seq<State>, ops: seq<Op>, i: nat)
    requires IsRun(states, ops) && i < |states|
    requires states[i].grants == map[] && states[i].pending == {}
    ensures states[i].sleepers == map[]
  {
    RunInv(states, ops, i);
    if t :| t in states[i].sleepers {
      SleeperHasHolder(states[i], t);
      assert false;
    }
  }

  /** The guarantees hold in every state of every interleaving of lock, unlock, reduce and broadcast steps. */
  lemma RunGuarantees(states: seq<State>, ops: seq<Op>, i: nat)
    requires IsRun(states, ops) && i < |states|
    ensures var s := states[i];
            && (forall w, r :: w in s.grants && r in s.grants && w != r && s.grants[w].kind == Writer ==>
                  Disjoint(s.grants[w], s.grants[r]))
            && (forall b: nat :: CountAt(s.tree, b) == |ReadersAt(s.grants, b)|)
            && (forall h :: h in s.grants && s.grants[h].kind == Reader ==>
                  TiledFrom(s.tree, s.grants[h].off, s.grants[h].End()))
            && (forall t :: t in s.sleepers ==>
                  s.sleepers[t].entry in s.pending || (WaitsOn(s.tree, s.sleepers[t]) && StillBlocked(s, s.sleepers[t])))
  {
    var s := states[i];
    RunInv(states, ops, i);
    forall w, r | w in s.grants && r in s.grants && w != r && s.grants[w].kind == Writer
      ensures Disjoint(s.grants[w], s.grants[r])
    {
      Exclusion(s, w, r);
    }
    forall b: nat ensures CountAt(s.tree, b) == |ReadersAt(s.grants, b)| {
      CountsAreExact(s, b);
    }
    forall h | h in s.grants && s.grants[h].kind == Reader
      ensures TiledFrom(s.tree, s.grants[h].off, s.grants[h].End())
    {
      ReadersAreTiled(s, h);
    }
    forall t | t in s.sleepers && s.sleepers[t].entry !in s.pending ensures StillBlocked(s, s.sleepers[t]) {
      NoNeedlessSleep(s, t);
    }
  }
}
