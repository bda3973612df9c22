/**
 Every step keeps the invariant, so it holds in every state of every run; what follows from it for callers.
 */
module RangeLockTheorems {
  import opened RangeLockModel
  import opened RangeLockInvariant
  import opened RangeLockReader
  import opened RangeLockRelease

  // ----- readers -----

  lemma {:induction false} GoodLater(tree: seq<Entry>, grants: map<Id, Grant>, now: nat)
    requires AllGood(tree, grants, now)
    ensures AllGood(tree, grants, now + 1)
  {
    if tree != [] {
      GoodLater(tree[1..], grants, now);
    }
  }

  lemma {:induction false} CutKeepsCovered(tree: seq<Entry>, grants: map<Id, Grant>, now: nat, off: nat)
    requires Covered(tree, grants, 0)
    ensures Covered(Cut(tree, off, now), grants, off)
  {
    forall h, b: nat | h in grants && grants[h].kind == Reader && off <= b && grants[h].off <= b < grants[h].End()
      ensures Covers(Cut(tree, off, now), b)
    {
      CutCovers(tree, now, off, b);
    }
  }

  lemma {:induction false} AdmitsBlocker(tree: seq<Entry>, off: nat, len: nat)
    ensures Admits(tree, off, len) <==> ReaderBlocker(tree, off, len) == |tree|
  {
    if tree != [] {
      AdmitsBlocker(tree[1..], off, len);
    }
  }

  lemma {:induction false} FreshHandle(tree: seq<Entry>, grants: map<Id, Grant>, now: nat)
    requires TreeOk(tree, grants, now) && GrantsOk(grants, now)
    ensures Handle(now) !in grants && !HasId(tree, Handle(now))
  {
    if HasId(tree, Handle(now)) {
      HandleAt(tree, 0, grants, now, Handle(now));
      assert false;
    }
  }

  ghost predicate AddPre(tree: seq<Entry>, grants: map<Id, Grant>, now: nat, off: nat, len: nat) {
    TreeOk(tree, grants, now) && GrantsOk(grants, now) && InBounds(off, len) && Admits(tree, off, len)
  }

  lemma {:induction false} BumpReaderPre(tree: seq<Entry>, grants: map<Id, Grant>, now: nat, off: nat, len: nat)
    requires AddPre(tree, grants, now, off, len)
    ensures BumpPre(Cut(tree, off, now), 0, grants, now, Handle(now), Grant(off, len, Reader))
  {
    FreshHandle(tree, grants, now);
    GoodLater(tree, grants, now);
    CutSorted(tree, 0, off, now);
    CutIsCut(tree, 0, off, now);
    CutGood(tree, grants, now, off, len);
    CutAdmits(tree, now, off, len);
    CutKeepsCovered(tree, grants, now, off);
  }

  lemma {:induction false} BumpReaderTree(tree: seq<Entry>, grants: map<Id, Grant>, now: nat, off: nat, len: nat)
    requires AddPre(tree, grants, now, off, len)
    ensures TreeOk(Bump(Cut(tree, off, now), off, off + len, now), grants[Handle(now) := Grant(off, len, Reader)], now + 1)
  {
    var g, h, cut := Grant(off, len, Reader), Handle(now), Cut(tree, off, now);
    BumpReaderPre(tree, grants, now, off, len);
    BumpAllGood(cut, 0, grants, now, h, g);
    var tree', grants' := Bump(cut, off, off + len, now), grants[h := g];
    forall r, b: nat | r in grants' && grants'[r].kind == Reader && grants'[r].off <= b < grants'[r].End()
      ensures Covers(tree', b)
    {
      if r != h {
        CutCovers(tree, now, off, b);
      }
      BumpCovers(cut, 0, off, off + len, now, b);
    }
  }

  function BumpAllDetached(tree: seq<Entry>, off: nat, len: nat, now: nat): set<Id> {
    {Handle(now)} + CutDetached(tree, off) + BumpDetached(Cut(tree, off, now), off, off + len)
  }

  lemma {:induction false} BumpReaderHandle(tree: seq<Entry>, grants: map<Id, Grant>, detached: set<Id>, now: nat,
                                            off: nat, len: nat, id: Id)
    requires AddPre(tree, grants, now, off, len) && HandleOk(tree, grants, detached, id) && id != Handle(now)
    ensures HandleOk(Bump(Cut(tree, off, now), off, off + len, now), grants[Handle(now) := Grant(off, len, Reader)],
                     detached + BumpAllDetached(tree, off, len, now), id)
  {
    var g, cut := Grant(off, len, Reader), Cut(tree, off, now);
    BumpReaderPre(tree, grants, now, off, len);
    GoodLater(tree, grants, now);
    if id in CutDetached(tree, off) {
      CutDetachesReaders(tree, grants, now, off, len, id);
    }
    if id in BumpDetached(cut, off, off + len) {
      BumpDetachesReaders(cut, 0, grants, now + 1, g, id);
    }
    if id in grants {
      CutIds(tree, 0, now, off, grants, id);
      BumpIds(cut, 0, off, off + len, now, grants, id);
    }
  }

  lemma {:induction false} BumpReaderNewHandle(tree: seq<Entry>, grants: map<Id, Grant>, now: nat, off: nat, len: nat)
    requires AddPre(tree, grants, now, off, len)
    ensures !HasId(Bump(Cut(tree, off, now), off, off + len, now), Handle(now))
  {
    var cut, h := Cut(tree, off, now), Handle(now);
    FreshHandle(tree, grants, now);
    if HasId(Bump(cut, off, off + len, now), h) {
      BumpNoNewHandles(cut, off, off + len, now, h);
      CutNoNewHandles(tree, off, now, h);
      assert false;
    }
  }

  lemma {:induction false} BumpReaderHandles(tree: seq<Entry>, grants: map<Id, Grant>, detached: set<Id>, now: nat,
                                             off: nat, len: nat)
    requires AddPre(tree, grants, now, off, len) && HandlesOk(tree, grants, detached)
    ensures HandlesOk(Bump(Cut(tree, off, now), off, off + len, now), grants[Handle(now) := Grant(off, len, Reader)],
                      detached + BumpAllDetached(tree, off, len, now))
  {
    var tree', grants' := Bump(Cut(tree, off, now), off, off + len, now), grants[Handle(now) := Grant(off, len, Reader)];
    forall id ensures HandleOk(tree', grants', detached + BumpAllDetached(tree, off, len, now), id) {
      BumpReaderNewHandle(tree, grants, now, off, len);
      if id != Handle(now) {
        assert HandleOk(tree, grants, detached, id);
        BumpReaderHandle(tree, grants, detached, now, off, len, id);
      }
    }
  }

  lemma {:induction false} BumpReaderSleepers(tree: seq<Entry>, grants: map<Id, Grant>, now: nat, off: nat, len: nat,
                           sleepers: map<Tid, Sleep>, pending: set<Id>)
    requires AddPre(tree, grants, now, off, len) && SleepersOk(tree, sleepers, pending)
    ensures SleepersOk(Bump(Cut(tree, off, now), off, off + len, now), sleepers, pending)
  {
    BumpReaderPre(tree, grants, now, off, len);
    GoodLater(tree, grants, now);
    forall t | t in sleepers && sleepers[t].entry !in pending
      ensures WaitsOn(Bump(Cut(tree, off, now), off, off + len, now), sleepers[t])
    {
      CutWaits(tree, now, off, len, sleepers[t], grants);
      BumpWaits(Cut(tree, off, now), 0, grants, now, Grant(off, len, Reader), sleepers[t]);
    }
  }

  // ----- an entry of one's own, for readers and writers alike -----

  function NewEntry(now: nat, off: nat, len: nat, kind: Kind): Entry {
    Entry(Handle(now), off, len, 1, kind, false, false)
  }

  lemma {:induction false} InsertTree(tree: seq<Entry>, grants: map<Id, Grant>, now: nat, off: nat, len: nat,
                                      kind: Kind)
    requires TreeOk(tree, grants, now) && GrantsOk(grants, now) && InBounds(off, len) && Clear(tree, off, off + len)
    ensures TreeOk(Insert(tree, NewEntry(now, off, len, kind)), grants[Handle(now) := Grant(off, len, kind)], now + 1)
  {
    var h, g, e := Handle(now), Grant(off, len, kind), NewEntry(now, off, len, kind);
    FreshHandle(tree, grants, now);
    GoodLater(tree, grants, now);
    ClearMeansUnread(tree, grants, off, off + len);
    CoverWith(grants, h, g, off, off + len);
    InsertOk(tree, 0, grants, now + 1, g, e);
    forall b: nat ensures Covers(Insert(tree, e), b) <==> Covers(tree, b) || e.off <= b < e.End() {
      InsertKeeps(tree, e, b, h, Sleep(h, WantRead, 0, 0));
    }
  }

  lemma {:induction false} InsertHandles(tree: seq<Entry>, grants: map<Id, Grant>, detached: set<Id>, e: Entry,
                                         g: Grant)
    requires HandlesOk(tree, grants, detached) && e.id !in grants
    ensures HandlesOk(Insert(tree, e), grants[e.id := g], detached)
  {
    var tree', grants' := Insert(tree, e), grants[e.id := g];
    assert HandleOk(tree, grants, detached, e.id);
    forall id ensures HandleOk(tree', grants', detached, id) {
      assert HandleOk(tree, grants, detached, id);
      InsertKeeps(tree, e, 0, id, Sleep(id, WantRead, 0, 0));
    }
  }

  lemma {:induction false} InsertSleepers(tree: seq<Entry>, sleepers: map<Tid, Sleep>, pending: set<Id>, e: Entry)
    requires SleepersOk(tree, sleepers, pending)
    ensures SleepersOk(Insert(tree, e), sleepers, pending)
  {
    forall t | t in sleepers && sleepers[t].entry !in pending ensures WaitsOn(Insert(tree, e), sleepers[t]) {
      InsertKeeps(tree, e, 0, e.id, sleepers[t]);
    }
  }

  lemma {:induction false} InsertInv(s: State, off: nat, len: nat, kind: Kind)
    requires Inv(s) && InBounds(off, len) && Clear(s.tree, off, off + len)
    ensures Inv(s.(tree := Insert(s.tree, NewEntry(s.now, off, len, kind)),
                   grants := s.grants[Handle(s.now) := Grant(off, len, kind)], now := s.now + 1))
  {
    var e := NewEntry(s.now, off, len, kind);
    InsertTree(s.tree, s.grants, s.now, off, len, kind);
    FreshHandle(s.tree, s.grants, s.now);
    InsertHandles(s.tree, s.grants, s.detached, e, Grant(off, len, kind));
    InsertSleepers(s.tree, s.sleepers, s.pending, e);
  }

  lemma {:induction false} BumpReaderInv(s: State, off: nat, len: nat)
    requires Inv(s) && InBounds(off, len) && Admits(s.tree, off, len)
    ensures Inv(s.(tree := Bump(Cut(s.tree, off, s.now), off, off + len, s.now),
                   grants := s.grants[Handle(s.now) := Grant(off, len, Reader)],
                   detached := s.detached + BumpAllDetached(s.tree, off, len, s.now), now := s.now + 1))
  {
    BumpReaderTree(s.tree, s.grants, s.now, off, len);
    BumpReaderHandles(s.tree, s.grants, s.detached, s.now, off, len);
    BumpReaderSleepers(s.tree, s.grants, s.now, off, len, s.sleepers, s.pending);
  }

  lemma {:induction false} AddReaderInv(s: State, off: nat, len: nat)
    requires Inv(s) && InBounds(off, len) && Admits(s.tree, off, len)
    ensures Inv(AddReader(s, off, len))
  {
    if Touches(Cut(s.tree, off, s.now), off, off + len) {
      BumpReaderInv(s, off, len);
      assert AddReader(s, off, len).detached == s.detached + BumpAllDetached(s.tree, off, len, s.now);
    } else {
      UntouchedIsClear(s.tree, 0, off, off + len, s.now);
      InsertInv(s, off, len, Reader);
    }
  }

  // ----- going to sleep -----

  lemma {:induction false} FlagTree(tree: seq<Entry>, lo: nat, grants: map<Id, Grant>, n: nat, i: nat, want: Want)
    requires SortedFrom(tree, lo) && AllGood(tree, grants, n) && i < |tree|
    requires want == WantRead ==> tree[i].kind == Writer || tree[i].writeWanted
    ensures SortedFrom(SetWanted(tree, i, want), lo) && AllGood(SetWanted(tree, i, want), grants, n)
    decreases i
  {
    if 0 < i {
      FlagTree(tree[1..], tree[0].End(), grants, n, i - 1, want);
      assert SetWanted(tree, i, want)[1..] == SetWanted(tree[1..], i - 1, want);
    } else {
      assert SetWanted(tree, i, want)[1..] == tree[1..];
    }
  }

  lemma {:induction false} FlagKeeps(tree: seq<Entry>, i: nat, want: Want, b: nat, id: Id, w: Sleep)
    requires i < |tree|
    ensures Covers(SetWanted(tree, i, want), b) <==> Covers(tree, b)
    ensures HasId(SetWanted(tree, i, want), id) <==> HasId(tree, id)
    ensures WaitsOn(tree, w) ==> WaitsOn(SetWanted(tree, i, want), w)
    ensures w.entry == tree[i].id && w.want == want && 0 < w.len && tree[i].Overlaps(w.off, w.off + w.len) ==>
              WaitsOn(SetWanted(tree, i, want), w)
    decreases i
  {
    if 0 < i {
      FlagKeeps(tree[1..], i - 1, want, b, id, w);
      assert SetWanted(tree, i, want)[1..] == SetWanted(tree[1..], i - 1, want);
    } else {
      assert SetWanted(tree, i, want)[1..] == tree[1..];
    }
  }

  lemma FlagHandles(tree: seq<Entry>, grants: map<Id, Grant>, detached: set<Id>, i: nat, want: Want)
    requires HandlesOk(tree, grants, detached) && i < |tree|
    ensures HandlesOk(SetWanted(tree, i, want), grants, detached)
  {
    forall id ensures HandleOk(SetWanted(tree, i, want), grants, detached, id) {
      assert HandleOk(tree, grants, detached, id);
      FlagKeeps(tree, i, want, 0, id, Sleep(id, want, 0, 0));
    }
  }

  lemma FlagSleepers(tree: seq<Entry>, sleepers: map<Tid, Sleep>, pending: set<Id>, t: Tid, i: nat, want: Want,
                     off: nat, len: nat)
    requires SleepersOk(tree, sleepers, pending) && i < |tree| && 0 < len && tree[i].Overlaps(off, off + len)
    ensures SleepersOk(SetWanted(tree, i, want), sleepers[t := Sleep(tree[i].id, want, off, len)], pending)
  {
    var sleepers' := sleepers[t := Sleep(tree[i].id, want, off, len)];
    forall u | u in sleepers' && sleepers'[u].entry !in pending ensures WaitsOn(SetWanted(tree, i, want), sleepers'[u]) {
      FlagKeeps(tree, i, want, 0, tree[i].id, sleepers'[u]);
    }
  }

  lemma SleepInv(s: State, t: Tid, i: nat, want: Want, off: nat, len: nat)
    requires Inv(s) && i < |s.tree| && 0 < len && s.tree[i].Overlaps(off, off + len)
    requires want == WantRead ==> s.tree[i].kind == Writer || s.tree[i].writeWanted
    ensures Inv(SleepOn(s, t, i, want, off, len))
  {
    var tree' := SetWanted(s.tree, i, want);
    FlagTree(s.tree, 0, s.grants, s.now, i, want);
    forall b: nat ensures Covers(tree', b) <==> Covers(s.tree, b) {
      FlagKeeps(s.tree, i, want, b, s.tree[i].id, Sleep(s.tree[i].id, want, 0, 0));
    }
    FlagHandles(s.tree, s.grants, s.detached, i, want);
    FlagSleepers(s.tree, s.sleepers, s.pending, t, i, want, off, len);
  }

  lemma LockReaderInv(s: State, t: Tid, off: nat, len: nat)
    requires Inv(s) && InBounds(off, len)
    ensures Inv(LockReader(s, t, off, len))
  {
    AdmitsBlocker(s.tree, off, len);
    if ReaderBlocker(s.tree, off, len) < |s.tree| {
      SleepInv(s, t, ReaderBlocker(s.tree, off, len), WantRead, off, len);
    } else {
      AddReaderInv(s, off, len);
    }
  }

  // ----- writers -----

  /** Looking only at the neighbours of the insertion point is the same as looking at every entry. */
  lemma {:induction false} NeighboursSuffice(tree: seq<Entry>, lo: nat, off: nat, len: nat)
    requires SortedFrom(tree, lo) && 0 < len
    ensures WriterBlocker(tree, off, len) == |tree| <==> Clear(tree, off, off + len)
  {
    if tree != [] {
      NeighboursSuffice(tree[1..], tree[0].End(), off, len);
      if off <= tree[0].off && off + len <= tree[0].off {
        BeyondIsClear(tree, off + len, off, off + len);
      }
    }
  }

  lemma {:induction false} NonemptyAt(tree: seq<Entry>, lo: nat, i: nat)
    requires SortedFrom(tree, lo) && i < |tree|
    ensures 0 < tree[i].len
  {
    if 0 < i {
      NonemptyAt(tree[1..], tree[0].End(), i - 1);
    }
  }

  /** The entry that a writer waits for is in its way. */
  lemma BlockerOverlaps(tree: seq<Entry>, lo: nat, off: nat, len: nat)
    requires SortedFrom(tree, lo) && 0 < len
    ensures var i := WriterBlocker(tree, off, len); i < |tree| ==> tree[i].Overlaps(off, off + len)
  {
    var i := WriterBlocker(tree, off, len);
    if i < |tree| {
      NonemptyAt(tree, lo, i);
    }
  }

  lemma LockWriterInv(s: State, t: Tid, off: nat, len: nat)
    requires Inv(s) && InBounds(off, len)
    ensures Inv(LockWriter(s, t, off, len))
  {
    NeighboursSuffice(s.tree, 0, off, len);
    if WriterBlocker(s.tree, off, len) < |s.tree| {
      BlockerOverlaps(s.tree, 0, off, len);
      SleepInv(s, t, WriterBlocker(s.tree, off, len), WantWrite, off, len);
    } else {
      InsertInv(s, off, len, Writer);
    }
  }

  // ----- releasing -----

  lemma {:induction false} UnlockReaderTree(tree: seq<Entry>, grants: map<Id, Grant>, now: nat, h: Id)
    requires TreeOk(tree, grants, now) && GrantsOk(grants, now) && h in grants && grants[h].kind == Reader
    ensures TreeOk(ReleaseAt(tree, grants[h].off, grants[h].len), grants - {h}, now)
    ensures ReleaseAtPre(tree, 0, grants, now, h)
  {
    ReleaseAtGood(tree, 0, grants, now, h);
    var tree', grants' := ReleaseAt(tree, grants[h].off, grants[h].len), grants - {h};
    forall r, b: nat | r in grants' && grants'[r].kind == Reader && grants'[r].off <= b < grants'[r].End()
      ensures Covers(tree', b)
    {
      ReleaseAtCovers(tree, 0, grants, now, h, r, b);
    }
  }

  lemma {:induction false} UnlockReaderHandles(tree: seq<Entry>, grants: map<Id, Grant>, detached: set<Id>, now: nat,
                                               h: Id)
    requires ReleaseAtPre(tree, 0, grants, now, h) && HandlesOk(tree, grants, detached) && GrantsOk(grants, now)
    ensures HandlesOk(ReleaseAt(tree, grants[h].off, grants[h].len), grants - {h}, detached - {h})
  {
    var tree' := ReleaseAt(tree, grants[h].off, grants[h].len);
    forall id ensures HandleOk(tree', grants - {h}, detached - {h}, id) {
      assert HandleOk(tree, grants, detached, id);
      if id in grants && id != h {
        ReleaseAtIds(tree, 0, grants, now, h, id);
      }
    }
  }

  lemma {:induction false} UnlockReaderSleepers(tree: seq<Entry>, sleepers: map<Tid, Sleep>, pending: set<Id>,
                                                off: nat, len: nat)
    requires SleepersOk(tree, sleepers, pending)
    ensures SleepersOk(ReleaseAt(tree, off, len), Awake(sleepers, ReleasedAt(tree, off, len)), pending)
  {
    var sleepers' := Awake(sleepers, ReleasedAt(tree, off, len));
    forall t | t in sleepers' && sleepers'[t].entry !in pending ensures WaitsOn(ReleaseAt(tree, off, len), sleepers'[t]) {
      ReleaseAtWaits(tree, off, len, sleepers[t]);
    }
  }

  lemma UnlockReaderInv(s: State, h: Id)
    requires Inv(s) && h in s.grants && s.grants[h].kind == Reader
    ensures Inv(UnlockReader(s, h))
  {
    UnlockReaderTree(s.tree, s.grants, s.now, h);
    UnlockReaderHandles(s.tree, s.grants, s.detached, s.now, h);
    UnlockReaderSleepers(s.tree, s.sleepers, s.pending, s.grants[h].off, s.grants[h].len);
  }

  lemma {:induction false} WriterInTree(s: State, h: Id)
    requires Inv(s) && h in s.grants && s.grants[h].kind == Writer
    ensures HasId(s.tree, h) && h !in s.detached
  {
    assert HandleOk(s.tree, s.grants, s.detached, h);
  }

  lemma {:induction false} UnlockWriterTree(tree: seq<Entry>, grants: map<Id, Grant>, now: nat, h: Id)
    requires TreeOk(tree, grants, now) && GrantsOk(grants, now) && h in grants && grants[h].kind == Writer && HasId(tree, h)
    ensures TreeOk(ReleaseAt(tree, grants[h].off, grants[h].len), grants - {h}, now)
  {
    RemoveWriter(tree, 0, grants, now, h);
    var tree', grants' := ReleaseAt(tree, grants[h].off, grants[h].len), grants - {h};
    forall r, b: nat | r in grants' && grants'[r].kind == Reader && grants'[r].off <= b < grants'[r].End()
      ensures Covers(tree', b)
    {
      assert Covers(tree, b);
      WriterUnread(tree, 0, grants, now, h, r, b);
      RemoveWriterKeeps(tree, 0, grants, now, h, b, h, Sleep(h, WantRead, 0, 0));
    }
  }

  /** No reader holds a byte of a writer's range. */
  lemma {:induction false} WriterUnread(tree: seq<Entry>, lo: nat, grants: map<Id, Grant>, n: nat, h: Id, r: Id, b: nat)
    requires SortedFrom(tree, lo) && AllGood(tree, grants, n) && HasId(tree, h) && h.Handle? && h in grants
    requires grants[h].kind == Writer && r in grants && grants[r].kind == Reader && grants[r].off <= b < grants[r].End()
    ensures !(grants[h].off <= b < grants[h].End())
  {
    if tree[0].id == h {
      assert r !in Cover(grants, tree[0].off, tree[0].End());
    } else {
      WriterUnread(tree[1..], tree[0].End(), grants, n, h, r, b);
    }
  }

  lemma UnlockWriterRest(s: State, h: Id)
    requires Inv(s) && h in s.grants && s.grants[h].kind == Writer
    ensures var tree' := ReleaseAt(s.tree, s.grants[h].off, s.grants[h].len);
            && HandlesOk(tree', s.grants - {h}, s.detached)
            && SleepersOk(tree', s.sleepers, s.pending + {h})
  {
    var tree', grants' := ReleaseAt(s.tree, s.grants[h].off, s.grants[h].len), s.grants - {h};
    WriterInTree(s, h);
    forall id ensures HandleOk(tree', grants', s.detached, id) {
      assert HandleOk(s.tree, s.grants, s.detached, id);
      RemoveWriterKeeps(s.tree, 0, s.grants, s.now, h, 0, id, Sleep(h, WantRead, 0, 0));
    }
    forall t | t in s.sleepers && s.sleepers[t].entry !in s.pending + {h} ensures WaitsOn(tree', s.sleepers[t]) {
      RemoveWriterKeeps(s.tree, 0, s.grants, s.now, h, 0, h, s.sleepers[t]);
    }
  }

  lemma UnlockWriterInv(s: State, h: Id)
    requires Inv(s) && h in s.grants && s.grants[h].kind == Writer
    ensures Inv(UnlockWriter(s, h))
  {
    WriterInTree(s, h);
    UnlockWriterTree(s.tree, s.grants, s.now, h);
    UnlockWriterRest(s, h);
  }

  // ----- shrinking a whole-file lock -----

  /** A lock on the whole file is the only entry of the tree, and the only grant. */
  lemma WholeFileAlone(s: State, h: Id)
    requires Inv(s) && h in s.grants && s.grants[h] == Grant(0, UINT64_MAX, Writer)
    ensures |s.tree| == 1 && s.tree[0].id == h && s.tree[0].kind == Writer
    ensures s.grants.Keys == {h} && s.detached == {}
  {
    WriterInTree(s, h);
    if s.tree[0].id != h {
      HandleAt(s.tree[1..], s.tree[0].End(), s.grants, s.now, h);
      assert false;
    }
    assert Good(s.tree[0], s.grants, s.now);
    NothingBeyond(s.tree[1..], s.grants, s.now);
    forall r | r in s.grants ensures r == h {
      AloneGrant(s, h, r);
    }
    forall r | r in s.detached ensures r in s.grants {
      assert HandleOk(s.tree, s.grants, s.detached, r);
    }
  }

  lemma {:induction false} NothingBeyond(tree: seq<Entry>, grants: map<Id, Grant>, n: nat)
    requires SortedFrom(tree, UINT64_MAX) && AllGood(tree, grants, n)
    ensures tree == []
  {
  }

  lemma AloneGrant(s: State, h: Id, r: Id)
    requires Inv(s) && h in s.grants && s.grants[h] == Grant(0, UINT64_MAX, Writer) && r in s.grants
    requires |s.tree| == 1 && s.tree[0].id == h
    ensures r == h && r !in s.detached
  {
    assert Good(s.tree[0], s.grants, s.now);
    assert r !in Cover(s.grants, 0, UINT64_MAX);
    WriterInTree(s, r);
    assert s.tree[1..] == [];
  }

  lemma {:induction false} ReduceInv(s: State, h: Id, off: nat, len: nat)
    requires Inv(s) && Enabled(s, OpReduce(h, off, len))
    ensures Inv(Reduce(s, h, off, len))
    ensures |s.tree| == 1 && Reduce(s, h, off, len).tree == [s.tree[0].(off := off, len := len)]
  {
    WholeFileAlone(s, h);
    var e := s.tree[0];
    assert s.tree[1..] == [];
    var tree', grants' := [e.(off := off, len := len)], s.grants[h := Grant(off, len, Writer)];
    assert Shrink(s.tree, h, off, len) == tree';
    assert Cover(grants', off, off + len) == {};
    assert Good(s.tree[0], s.grants, s.now);
    assert Good(tree'[0], grants', s.now);
    assert AllGood(tree'[1..], grants', s.now);
    forall id ensures HandleOk(tree', grants', s.detached, id) {
      assert HandleOk(s.tree, s.grants, s.detached, id);
    }
  }

  lemma BroadcastInv(s: State, h: Id)
    requires Inv(s)
    ensures Inv(Broadcast(s, h))
  {
  }

  // ----- every state of every run -----

  lemma StepInv(s: State, op: Op)
    requires Inv(s) && Enabled(s, op)
    ensures Inv(Step(s, op))
  {
    match op
    case OpLockReader(t, off, len) => LockReaderInv(s, t, off, len);
    case OpLockWriter(t, off, len) => LockWriterInv(s, t, off, len);
    case OpUnlock(h) =>
      if s.grants[h].kind == Reader {
        UnlockReaderInv(s, h);
      } else {
        UnlockWriterInv(s, h);
      }
    case OpReduce(h, off, len) => ReduceInv(s, h, off, len);
    case OpBroadcast(h) => BroadcastInv(s, h);
  }

  lemma {:induction false} RunInv(states: seq<State>, ops: seq<Op>, i: nat)
    requires IsRun(states, ops) && i < |states|
    ensures Inv(states[i])
    decreases i
  {
    if i == 0 {
      assert forall h :: HandleOk([], map[], {}, h);
    } else {
      RunInv(states, ops, i - 1);
      assert Follows(states[i - 1], ops[i - 1], states[i - 1 + 1]);
      StepInv(states[i - 1], ops[i - 1]);
    }
  }
}
