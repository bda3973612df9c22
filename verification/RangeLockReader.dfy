/**
 Adding a reader keeps the invariant: splits, gaps and bumped counts agree with one more grant.
 */
module RangeLockReader {
  import opened RangeLockModel
  import opened RangeLockInvariant

  // ----- single entries -----

  lemma KeepGood(e: Entry, grants: map<Id, Grant>, n: nat, h: Id, g: Grant)
    requires Good(e, grants, n) && h !in grants
    requires g.kind == Reader ==> !e.Overlaps(g.off, g.End())
    ensures Good(e, grants[h := g], n)
  {
    CoverWith(grants, h, g, e.off, e.End());
  }

  /** A part of a reader entry is as good as the whole entry. */
  lemma PartGood(e: Entry, p: Entry, grants: map<Id, Grant>, n: nat)
    requires Good(e, grants, n) && e.kind == Reader
    requires p.kind == Reader && e.off <= p.off < p.End() <= e.End() && p.cnt == e.cnt
    requires p.id.Proxy? && p.id.at == p.off && p.id.stamp < n
    requires p.readWanted ==> p.writeWanted
    ensures Good(p, grants, n)
  {
    CoverOfPart(grants, e.off, e.End(), p.off, p.End());
  }

  /** A proxy inside the new range counts one reader more. */
  lemma BumpGood(p: Entry, grants: map<Id, Grant>, n: nat, h: Id, g: Grant)
    requires Good(p, grants, n) && p.id.Proxy? && h !in grants && g.kind == Reader
    requires g.off <= p.off && p.End() <= g.End()
    ensures Good(p.(cnt := p.cnt + 1), grants[h := g], n)
  {
    CoverWith(grants, h, g, p.off, p.End());
  }

  lemma {:induction false} CommonByte(rest: seq<Entry>, grants: map<Id, Grant>, from: nat, r: Id, lo: nat, hi: nat)
    requires r in Cover(grants, lo, hi) && lo < hi && 0 < grants[r].len
    requires Covered(rest, grants, from) && from <= lo
    ensures exists b: nat :: lo <= b < hi && Covers(rest, b)
  {
    var b := if grants[r].off < lo then lo else grants[r].off;
    assert lo <= b < hi && Covers(rest, b);
  }

  /** Nobody reads where the tree has a gap, so the proxy that fills it counts only the new reader. */
  lemma {:induction false} GapGood(p: Entry, grants: map<Id, Grant>, now: nat, h: Id, g: Grant, rest: seq<Entry>)
    requires p == NewProxy(p.off, p.len, now) && InBounds(p.off, p.len)
    requires h !in grants && g.kind == Reader && g.off <= p.off && p.End() <= g.End()
    requires Covered(rest, grants, p.off) && SortedFrom(rest, p.End())
    requires forall h :: h in grants ==> 0 < grants[h].len
    ensures Good(p, grants[h := g], now + 1)
  {
    if r :| r in Cover(grants, p.off, p.End()) {
      CommonByte(rest, grants, p.off, r, p.off, p.End());
      var b: nat :| p.off <= b < p.End() && Covers(rest, b);
      NoneBefore(rest, p.End(), b);
      assert false;
    }
    CoverWith(grants, h, g, p.off, p.End());
  }

  lemma {:induction false} NoneBefore(tree: seq<Entry>, lo: nat, b: nat)
    requires SortedFrom(tree, lo) && b < lo
    ensures !Covers(tree, b)
  {
    if tree != [] {
      NoneBefore(tree[1..], tree[0].End(), b);
    }
  }

  lemma {:induction false} KeepAllGood(tree: seq<Entry>, lo: nat, grants: map<Id, Grant>, n: nat, h: Id, g: Grant)
    requires SortedFrom(tree, lo) && g.End() <= lo && AllGood(tree, grants, n) && h !in grants
    ensures AllGood(tree, grants[h := g], n)
  {
    if tree != [] {
      KeepGood(tree[0], grants, n, h, g);
      KeepAllGood(tree[1..], tree[0].End(), grants, n, h, g);
    }
  }

  // ----- the walk -----

  ghost predicate Admits(tree: seq<Entry>, off: nat, len: nat) {
    tree == [] || (!BlocksReader(tree[0], off, len) && Admits(tree[1..], off, len))
  }

  ghost predicate WalkPre(rest: seq<Entry>, pos: nat, grants: map<Id, Grant>, now: nat, h: Id, g: Grant) {
    && SortedFrom(rest, pos) && AllGood(rest, grants, now + 1) && Covered(rest, grants, pos)
    && (forall h :: h in grants ==> 0 < grants[h].len) && h !in grants
    && g.kind == Reader && InBounds(g.off, g.len) && g.off <= pos <= g.End()
    && Admits(rest, g.off, g.len)
  }

  lemma CoveredTail(rest: seq<Entry>, grants: map<Id, Grant>, from: nat)
    requires rest != [] && Covered(rest, grants, from) && from <= rest[0].End()
    ensures Covered(rest[1..], grants, rest[0].End())
  {
    forall h, b: nat | h in grants && grants[h].kind == Reader && rest[0].End() <= b && grants[h].off <= b < grants[h].End()
      ensures Covers(rest[1..], b)
    {
      assert Covers(rest, b);
    }
  }

  lemma {:induction false} WalkGood(rest: seq<Entry>, pos: nat, grants: map<Id, Grant>, now: nat, h: Id, g: Grant)
    requires WalkPre(rest, pos, grants, now, h, g)
    ensures AllGood(Walk(rest, pos, g.End(), now), grants[h := g], now + 1)
    decreases |rest|, 1
  {
    var end := g.End();
    if rest == [] || end <= rest[0].off {
      if pos < end {
        GapGood(NewProxy(pos, end - pos, now), grants, now, h, g, rest);
      }
      KeepAllGood(rest, end, grants, now + 1, h, g);
    } else {
      if pos < rest[0].off {
        GapGood(NewProxy(pos, rest[0].off - pos, now), grants, now, h, g, rest);
      }
      WalkEntryGood(rest, pos, grants, now, h, g);
    }
  }

  lemma {:induction false} WalkEntryGood(rest: seq<Entry>, pos: nat, grants: map<Id, Grant>, now: nat, h: Id, g: Grant)
    requires WalkPre(rest, pos, grants, now, h, g) && rest != [] && rest[0].off < g.End()
    ensures AllGood(WalkEntry(rest, g.End(), now), grants[h := g], now + 1)
    decreases |rest|, 0
  {
    var r, end := rest[0], g.End();
    if end < r.End() {
      SplitGood(r, grants, now, h, g);
      KeepAllGood(rest[1..], r.End(), grants, now + 1, h, g);
    } else {
      PartGood(r, Proxify(r, now), grants, now + 1);
      BumpGood(Proxify(r, now), grants, now + 1, h, g);
      CoveredTail(rest, grants, pos);
      WalkGood(rest[1..], r.End(), grants, now, h, g);
    }
  }

  /** The new range ends inside its last entry: the front is bumped, the rear keeps the old count. */
  lemma SplitGood(r: Entry, grants: map<Id, Grant>, now: nat, h: Id, g: Grant)
    requires Good(r, grants, now + 1) && r.kind == Reader && !r.writeWanted && h !in grants
    requires g.kind == Reader && g.off <= r.off < g.End() < r.End()
    ensures var front := Front(r, g.End(), now);
            && Good(front.(cnt := front.cnt + 1), grants[h := g], now + 1)
            && Good(Rear(r, g.End(), now), grants[h := g], now + 1)
  {
    var front, rear := Front(r, g.End(), now), Rear(r, g.End(), now);
    PartGood(r, front, grants, now + 1);
    BumpGood(front, grants, now + 1, h, g);
    PartGood(r, rear, grants, now + 1);
    KeepGood(rear, grants, now + 1, h, g);
  }

  lemma {:induction false} WalkSorted(rest: seq<Entry>, pos: nat, end: nat, now: nat)
    requires SortedFrom(rest, pos) && pos <= end
    ensures SortedFrom(Walk(rest, pos, end, now), pos)
    decreases |rest|, 1
  {
    if rest != [] && rest[0].off < end {
      WalkEntrySorted(rest, rest[0].off, end, now);
    }
  }

  lemma {:induction false} WalkEntrySorted(rest: seq<Entry>, pos: nat, end: nat, now: nat)
    requires SortedFrom(rest, pos) && rest != [] && rest[0].off < end
    ensures SortedFrom(WalkEntry(rest, end, now), pos)
    decreases |rest|, 0
  {
    if rest[0].End() <= end {
      WalkSorted(rest[1..], rest[0].End(), end, now);
    }
  }

  /** Every byte of the range is covered afterwards, and nothing that was covered is lost. */
  lemma {:induction false} WalkCovers(rest: seq<Entry>, pos: nat, end: nat, now: nat, b: nat)
    requires SortedFrom(rest, pos) && pos <= b && (b < end || Covers(rest, b))
    ensures Covers(Walk(rest, pos, end, now), b)
    decreases |rest|
  {
    if rest != [] && rest[0].off < end {
      if rest[0].End() <= end && rest[0].End() <= b {
        WalkCovers(rest[1..], rest[0].End(), end, now, b);
      }
    }
  }

  /** Sleepers wait on entries outside the range, and those stay as they are. */
  lemma {:induction false} WalkWaits(rest: seq<Entry>, pos: nat, end: nat, now: nat, w: Sleep, grants: map<Id, Grant>,
                                     g: Grant)
    requires SortedFrom(rest, pos) && AllGood(rest, grants, now + 1) && Admits(rest, g.off, g.len)
    requires g.off <= pos && end == g.End() && WaitsOn(rest, w)
    ensures WaitsOn(Walk(rest, pos, end, now), w)
    decreases |rest|
  {
    if rest[0].off < end && rest[0].End() <= end {
      WalkWaits(rest[1..], rest[0].End(), end, now, w, grants, g);
    }
  }

  /** The original locks in the range leave the tree, the others stay. */
  lemma {:induction false} WalkIds(rest: seq<Entry>, pos: nat, end: nat, now: nat, grants: map<Id, Grant>, id: Id)
    requires SortedFrom(rest, pos) && AllGood(rest, grants, now + 1) && id in grants && id.Handle?
    ensures HasId(Walk(rest, pos, end, now), id) <==> HasId(rest, id) && id !in WalkDetached(rest, end)
    ensures HasId(rest, id) ==> pos <= grants[id].off
    ensures id in WalkDetached(rest, end) ==> HasId(rest, id)
    decreases |rest|
  {
    if rest != [] {
      WalkIds(rest[1..], rest[0].End(), end, now, grants, id);
      if rest[0].off < end < rest[0].End() {
        assert HasId([Rear(rest[0], end, now)] + rest[1..], id) <==> HasId(rest[1..], id);
      }
    }
  }

  /** Only granted readers are replaced by proxies. */
  lemma {:induction false} WalkDetachesReaders(rest: seq<Entry>, pos: nat, grants: map<Id, Grant>, n: nat, g: Grant,
                                               id: Id)
    requires SortedFrom(rest, pos) && AllGood(rest, grants, n) && Admits(rest, g.off, g.len) && g.off <= pos
    requires id in WalkDetached(rest, g.End())
    ensures id.Handle? && id in grants && grants[id].kind == Reader
    decreases |rest|
  {
    if id != rest[0].id || id.Proxy? {
      WalkDetachesReaders(rest[1..], rest[0].End(), grants, n, g, id);
    }
  }

  lemma {:induction false} WalkNoNewHandles(rest: seq<Entry>, pos: nat, end: nat, now: nat, id: Id)
    requires HasId(Walk(rest, pos, end, now), id) && id.Handle?
    ensures HasId(rest, id)
    decreases |rest|
  {
    if rest != [] && rest[0].off < end {
      assert HasId(WalkEntry(rest, end, now), id);
      if end < rest[0].End() {
        assert HasId([Rear(rest[0], end, now)] + rest[1..], id) <==> HasId(rest[1..], id);
      } else if !HasId(rest[1..], id) && rest[0].id != id {
        WalkNoNewHandles(rest[1..], rest[0].End(), end, now, id);
      }
    }
  }

  // ----- the cut at the start of the range -----

  lemma {:induction false} CutSorted(tree: seq<Entry>, lo: nat, off: nat, now: nat)
    requires SortedFrom(tree, lo)
    ensures SortedFrom(Cut(tree, off, now), lo)
  {
    if tree != [] && tree[0].End() <= off {
      CutSorted(tree[1..], tree[0].End(), off, now);
    }
  }

  /** After the cut no entry runs across `off`. */
  ghost predicate CutAt(tree: seq<Entry>, off: nat) {
    tree == [] || ((tree[0].End() <= off || off <= tree[0].off) && CutAt(tree[1..], off))
  }

  lemma {:induction false} SortedIsCut(tree: seq<Entry>, lo: nat, off: nat)
    requires SortedFrom(tree, lo) && off <= lo
    ensures CutAt(tree, off)
  {
    if tree != [] {
      SortedIsCut(tree[1..], tree[0].End(), off);
    }
  }

  lemma {:induction false} CutIsCut(tree: seq<Entry>, lo: nat, off: nat, now: nat)
    requires SortedFrom(tree, lo)
    ensures CutAt(Cut(tree, off, now), off)
  {
    if tree == [] || off <= tree[0].off {
      SortedIsCut(tree, off, off);
    } else if off < tree[0].End() {
      SortedIsCut(tree[1..], off, off);
      assert CutAt([Rear(tree[0], off, now)] + tree[1..], off);
    } else {
      CutIsCut(tree[1..], tree[0].End(), off, now);
    }
  }

  lemma {:induction false} CutGood(tree: seq<Entry>, grants: map<Id, Grant>, now: nat, off: nat, len: nat)
    requires AllGood(tree, grants, now + 1) && Admits(tree, off, len) && 0 < len
    ensures AllGood(Cut(tree, off, now), grants, now + 1)
  {
    if tree == [] || off <= tree[0].off {
    } else if off < tree[0].End() {
      PartGood(tree[0], Front(tree[0], off, now), grants, now + 1);
      PartGood(tree[0], Rear(tree[0], off, now), grants, now + 1);
    } else {
      CutGood(tree[1..], grants, now, off, len);
    }
  }

  lemma {:induction false} CutAdmits(tree: seq<Entry>, now: nat, off: nat, len: nat)
    requires Admits(tree, off, len) && 0 < len
    ensures Admits(Cut(tree, off, now), off, len)
  {
    if tree == [] || off <= tree[0].off {
    } else if off < tree[0].End() {
      assert Admits([Rear(tree[0], off, now)] + tree[1..], off, len);
    } else {
      CutAdmits(tree[1..], now, off, len);
    }
  }

  lemma {:induction false} CutCovers(tree: seq<Entry>, now: nat, off: nat, b: nat)
    requires Covers(tree, b)
    ensures Covers(Cut(tree, off, now), b)
  {
    if tree[0].off < off {
      if tree[0].End() <= off {
        if !(tree[0].off <= b < tree[0].End()) {
          CutCovers(tree[1..], now, off, b);
        }
      } else {
        assert off <= b < tree[0].End() || Covers(tree[1..], b) ==> Covers([Rear(tree[0], off, now)] + tree[1..], b);
      }
    }
  }

  lemma {:induction false} CutWaits(tree: seq<Entry>, now: nat, off: nat, len: nat, w: Sleep, grants: map<Id, Grant>)
    requires AllGood(tree, grants, now + 1) && Admits(tree, off, len) && 0 < len && WaitsOn(tree, w)
    ensures WaitsOn(Cut(tree, off, now), w)
  {
    if tree[0].off < off {
      if tree[0].End() <= off {
        if !Waits(tree[0], w) {
          CutWaits(tree[1..], now, off, len, w, grants);
        }
      } else {
        assert WaitsOn([Rear(tree[0], off, now)] + tree[1..], w);
      }
    }
  }

  lemma {:induction false} CutIds(tree: seq<Entry>, lo: nat, now: nat, off: nat, grants: map<Id, Grant>, id: Id)
    requires SortedFrom(tree, lo) && AllGood(tree, grants, now + 1) && id in grants && id.Handle?
    ensures HasId(Cut(tree, off, now), id) <==> HasId(tree, id) && id !in CutDetached(tree, off)
    ensures HasId(tree, id) ==> lo <= grants[id].off
    ensures id in CutDetached(tree, off) ==> HasId(tree, id)
  {
    if tree != [] {
      CutIds(tree[1..], tree[0].End(), now, off, grants, id);
      if tree[0].off < off < tree[0].End() {
        assert HasId([Rear(tree[0], off, now)] + tree[1..], id) <==> HasId(tree[1..], id);
      }
    }
  }

  lemma {:induction false} CutDetachesReaders(tree: seq<Entry>, grants: map<Id, Grant>, n: nat, off: nat, len: nat,
                                              id: Id)
    requires AllGood(tree, grants, n) && Admits(tree, off, len) && 0 < len
    requires id in CutDetached(tree, off)
    ensures id.Handle? && id in grants && grants[id].kind == Reader
  {
    if tree[0].End() <= off {
      CutDetachesReaders(tree[1..], grants, n, off, len, id);
    }
  }

  lemma {:induction false} CutNoNewHandles(tree: seq<Entry>, off: nat, now: nat, id: Id)
    requires HasId(Cut(tree, off, now), id) && id.Handle?
    ensures HasId(tree, id)
  {
    if tree[0].off < off {
      if off < tree[0].End() {
        assert HasId([Rear(tree[0], off, now)] + tree[1..], id) <==> HasId(tree[1..], id);
      } else if tree[0].id != id {
        CutNoNewHandles(tree[1..], off, now, id);
      }
    }
  }

  // ----- bumping from the start of the range -----

  ghost predicate BumpPre(tree: seq<Entry>, lo: nat, grants: map<Id, Grant>, now: nat, h: Id, g: Grant) {
    && SortedFrom(tree, lo) && AllGood(tree, grants, now + 1) && Covered(tree, grants, g.off) && CutAt(tree, g.off)
    && (forall h :: h in grants ==> 0 < grants[h].len) && h !in grants
    && g.kind == Reader && InBounds(g.off, g.len)
    && Admits(tree, g.off, g.len)
  }

  lemma BumpPreTail(tree: seq<Entry>, lo: nat, grants: map<Id, Grant>, now: nat, h: Id, g: Grant)
    requires BumpPre(tree, lo, grants, now, h, g) && tree != [] && tree[0].off < g.off
    ensures BumpPre(tree[1..], tree[0].End(), grants, now, h, g)
    ensures !tree[0].Overlaps(g.off, g.End())
  {
    forall h, b: nat | h in grants && grants[h].kind == Reader && g.off <= b && grants[h].off <= b < grants[h].End()
      ensures Covers(tree[1..], b)
    {
      assert Covers(tree, b);
    }
  }

  lemma BumpPreWalk(tree: seq<Entry>, lo: nat, grants: map<Id, Grant>, now: nat, h: Id, g: Grant)
    requires BumpPre(tree, lo, grants, now, h, g) && (tree == [] || g.off <= tree[0].off)
    ensures WalkPre(tree, g.off, grants, now, h, g)
  {
  }

  lemma {:induction false} BumpAllGood(tree: seq<Entry>, lo: nat, grants: map<Id, Grant>, now: nat, h: Id, g: Grant)
    requires BumpPre(tree, lo, grants, now, h, g)
    ensures AllGood(Bump(tree, g.off, g.End(), now), grants[h := g], now + 1)
    ensures lo <= g.off ==> SortedFrom(Bump(tree, g.off, g.End(), now), lo)
  {
    if tree != [] && tree[0].off < g.off {
      BumpPreTail(tree, lo, grants, now, h, g);
      BumpAllGood(tree[1..], tree[0].End(), grants, now, h, g);
      KeepGood(tree[0], grants, now + 1, h, g);
    } else {
      BumpPreWalk(tree, lo, grants, now, h, g);
      WalkGood(tree, g.off, grants, now, h, g);
      WalkSorted(tree, g.off, g.End(), now);
      SortedLower(Walk(tree, g.off, g.End(), now), g.off, lo);
    }
  }

  lemma {:induction false} SortedLower(tree: seq<Entry>, lo: nat, lo': nat)
    requires SortedFrom(tree, lo)
    ensures lo' <= lo ==> SortedFrom(tree, lo')
  {
  }

  lemma {:induction false} BumpCovers(tree: seq<Entry>, lo: nat, off: nat, end: nat, now: nat, b: nat)
    requires SortedFrom(tree, lo) && CutAt(tree, off) && (off <= b < end || Covers(tree, b))
    ensures Covers(Bump(tree, off, end, now), b)
  {
    if tree != [] && tree[0].off < off {
      if !(tree[0].off <= b < tree[0].End()) {
        BumpCovers(tree[1..], tree[0].End(), off, end, now, b);
      }
    } else {
      if b < off {
        NoneBefore(tree, off, b);
        assert false;
      }
      WalkCovers(tree, off, end, now, b);
    }
  }

  lemma {:induction false} BumpWaits(tree: seq<Entry>, lo: nat, grants: map<Id, Grant>, now: nat, g: Grant, w: Sleep)
    requires SortedFrom(tree, lo) && AllGood(tree, grants, now + 1) && Admits(tree, g.off, g.len) && WaitsOn(tree, w)
    ensures WaitsOn(Bump(tree, g.off, g.End(), now), w)
  {
    if tree[0].off < g.off {
      if !Waits(tree[0], w) {
        BumpWaits(tree[1..], tree[0].End(), grants, now, g, w);
      }
    } else {
      WalkWaits(tree, g.off, g.End(), now, w, grants, g);
    }
  }

  lemma {:induction false} BumpIds(tree: seq<Entry>, lo: nat, off: nat, end: nat, now: nat, grants: map<Id, Grant>,
                                   id: Id)
    requires SortedFrom(tree, lo) && AllGood(tree, grants, now + 1) && id in grants && id.Handle?
    ensures HasId(Bump(tree, off, end, now), id) <==> HasId(tree, id) && id !in BumpDetached(tree, off, end)
    ensures HasId(tree, id) ==> lo <= grants[id].off
    ensures id in BumpDetached(tree, off, end) ==> HasId(tree, id)
  {
    if tree != [] && tree[0].off < off {
      BumpIds(tree[1..], tree[0].End(), off, end, now, grants, id);
    } else {
      WalkIds(tree, if tree == [] then lo else tree[0].off, end, now, grants, id);
      WalkIds(tree, off, end, now, grants, id);
    }
  }

  lemma {:induction false} BumpDetachesReaders(tree: seq<Entry>, lo: nat, grants: map<Id, Grant>, n: nat, g: Grant,
                                               id: Id)
    requires SortedFrom(tree, lo) && AllGood(tree, grants, n) && Admits(tree, g.off, g.len)
    requires id in BumpDetached(tree, g.off, g.End())
    ensures id.Handle? && id in grants && grants[id].kind == Reader
  {
    if tree != [] && tree[0].off < g.off {
      BumpDetachesReaders(tree[1..], tree[0].End(), grants, n, g, id);
    } else {
      WalkDetachesReaders(tree, g.off, grants, n, g, id);
    }
  }

  lemma {:induction false} BumpNoNewHandles(tree: seq<Entry>, off: nat, end: nat, now: nat, id: Id)
    requires HasId(Bump(tree, off, end, now), id) && id.Handle?
    ensures HasId(tree, id)
  {
    if tree != [] && tree[0].off < off {
      if tree[0].id != id {
        BumpNoNewHandles(tree[1..], off, end, now, id);
      }
    } else {
      WalkNoNewHandles(tree, off, end, now, id);
    }
  }

  // ----- inserting an entry where the tree is clear -----

  ghost predicate Clear(tree: seq<Entry>, lo: nat, hi: nat) {
    tree == [] || (!tree[0].Overlaps(lo, hi) && Clear(tree[1..], lo, hi))
  }

  lemma {:induction false} ClearByte(tree: seq<Entry>, lo: nat, hi: nat, b: nat)
    requires Clear(tree, lo, hi) && lo <= b < hi
    ensures !Covers(tree, b)
  {
    if tree != [] {
      ClearByte(tree[1..], lo, hi, b);
    }
  }

  lemma {:induction false} ClearMeansUnread(tree: seq<Entry>, grants: map<Id, Grant>, lo: nat, hi: nat)
    requires Clear(tree, lo, hi) && lo < hi && Covered(tree, grants, 0)
    requires forall h :: h in grants ==> 0 < grants[h].len
    ensures Cover(grants, lo, hi) == {}
  {
    if r :| r in Cover(grants, lo, hi) {
      CommonByte(tree, grants, 0, r, lo, hi);
      var b: nat :| lo <= b < hi && Covers(tree, b);
      ClearByte(tree, lo, hi, b);
      assert false;
    }
  }

  lemma {:induction false} InsertOk(tree: seq<Entry>, lo: nat, grants: map<Id, Grant>, n: nat, g: Grant, e: Entry)
    requires SortedFrom(tree, lo) && lo <= e.off && AllGood(tree, grants, n) && Clear(tree, e.off, e.End())
    requires e.id !in grants && g == Grant(e.off, e.len, e.kind) && Good(e, grants[e.id := g], n)
    ensures SortedFrom(Insert(tree, e), lo)
    ensures AllGood(Insert(tree, e), grants[e.id := g], n)
  {
    if tree != [] {
      KeepGood(tree[0], grants, n, e.id, g);
      if tree[0].off < e.off {
        InsertOk(tree[1..], tree[0].End(), grants, n, g, e);
      } else {
        KeepAllGood(tree[1..], tree[0].End(), grants, n, e.id, g);
      }
    }
  }

  lemma {:induction false} InsertKeeps(tree: seq<Entry>, e: Entry, b: nat, id: Id, w: Sleep)
    ensures Covers(Insert(tree, e), b) <==> Covers(tree, b) || e.off <= b < e.End()
    ensures HasId(Insert(tree, e), id) <==> HasId(tree, id) || id == e.id
    ensures WaitsOn(tree, w) ==> WaitsOn(Insert(tree, e), w)
  {
    if tree != [] && tree[0].off < e.off {
      InsertKeeps(tree[1..], e, b, id, w);
    }
  }

  /** If the first entry after the cut lies beyond the new range, nothing overlaps the range. */
  lemma {:induction false} UntouchedIsClear(tree: seq<Entry>, lo: nat, off: nat, end: nat, now: nat)
    requires SortedFrom(tree, lo) && off < end && !Touches(Cut(tree, off, now), off, end)
    ensures Clear(tree, off, end)
  {
    if tree == [] {
    } else if off <= tree[0].off {
      BeyondIsClear(tree, end, off, end);
    } else if off < tree[0].End() {
      assert Touches([Rear(tree[0], off, now)] + tree[1..], off, end);
      assert false;
    } else {
      UntouchedIsClear(tree[1..], tree[0].End(), off, end, now);
    }
  }

  lemma {:induction false} BeyondIsClear(tree: seq<Entry>, lo: nat, off: nat, end: nat)
    requires SortedFrom(tree, lo) && end <= lo
    ensures Clear(tree, off, end)
  {
    if tree != [] {
      BeyondIsClear(tree[1..], tree[0].End(), off, end);
    }
  }
}
