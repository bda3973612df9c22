/**
 Releasing a lock keeps the invariant: the walk over the proxies ends exactly at the end of the range and takes
 exactly one reader away.
 */
module RangeLockRelease {
  import opened RangeLockModel
  import opened RangeLockInvariant
  import opened RangeLockReader

  // ----- single entries -----

  lemma StayGood(e: Entry, grants: map<Id, Grant>, n: nat, h: Id)
    requires Good(e, grants, n) && h in grants && e.id != h
    requires grants[h].kind == Reader ==> !e.Overlaps(grants[h].off, grants[h].End())
    ensures Good(e, grants - {h}, n)
  {
    CoverWithout(grants, h, e.off, e.End());
    assert h !in Cover(grants, e.off, e.End());
  }

  lemma DropGood(e: Entry, grants: map<Id, Grant>, n: nat, h: Id)
    requires Good(e, grants, n) && h in Cover(grants, e.off, e.End()) && 1 < e.cnt
    ensures Good(e.(cnt := e.cnt - 1), grants - {h}, n)
  {
    CoverWithout(grants, h, e.off, e.End());
  }

  lemma {:induction false} StayAllGood(tree: seq<Entry>, lo: nat, grants: map<Id, Grant>, n: nat, h: Id)
    requires SortedFrom(tree, lo) && AllGood(tree, grants, n)
    requires h in grants && h.Handle? && grants[h].End() <= lo && 0 < grants[h].len
    ensures AllGood(tree, grants - {h}, n)
  {
    if tree != [] {
      StayGood(tree[0], grants, n, h);
      StayAllGood(tree[1..], tree[0].End(), grants, n, h);
    }
  }

  // ----- the walk over a reader's entries -----

  ghost predicate ReleasePre(rest: seq<Entry>, pos: nat, grants: map<Id, Grant>, n: nat, h: Id) {
    && SortedFrom(rest, pos) && AllGood(rest, grants, n) && Covered(rest, grants, pos)
    && h in grants && h.Handle? && grants[h].kind == Reader && 0 < grants[h].len
    && grants[h].off <= pos <= grants[h].End()
  }

  /** As long as bytes are left to release, the next entry continues the tiling of the reader's range. */
  lemma NextTile(rest: seq<Entry>, pos: nat, grants: map<Id, Grant>, n: nat, h: Id)
    requires ReleasePre(rest, pos, grants, n, h) && pos < grants[h].End()
    ensures rest != [] && rest[0].off == pos && rest[0].End() <= grants[h].End()
    ensures rest[0].kind == Reader && 0 < rest[0].cnt && h in Cover(grants, rest[0].off, rest[0].End())
    ensures ReleasePre(rest[1..], rest[0].End(), grants, n, h)
  {
    assert Covers(rest, pos);
    if pos < rest[0].off {
      NoneBefore(rest, rest[0].off, pos);
      assert false;
    }
    assert h in Cover(grants, rest[0].off, rest[0].End());
    CoveredTail(rest, grants, pos);
  }

  lemma {:induction false} ReleaseGood(rest: seq<Entry>, pos: nat, grants: map<Id, Grant>, n: nat, h: Id)
    requires ReleasePre(rest, pos, grants, n, h)
    ensures AllGood(Release(rest, grants[h].End() - pos), grants - {h}, n)
    ensures SortedFrom(Release(rest, grants[h].End() - pos), pos)
    decreases |rest|
  {
    if pos == grants[h].End() {
      StayAllGood(rest, pos, grants, n, h);
    } else {
      NextTile(rest, pos, grants, n, h);
      ReleaseGood(rest[1..], rest[0].End(), grants, n, h);
      if 1 < rest[0].cnt {
        DropGood(rest[0], grants, n, h);
      } else {
        SortedLower(Release(rest[1..], grants[h].End() - rest[0].End()), rest[0].End(), pos);
      }
    }
  }

  /** Bytes of other readers stay covered. */
  lemma {:induction false} ReleaseCovers(rest: seq<Entry>, pos: nat, grants: map<Id, Grant>, n: nat, h: Id, r: Id,
                                         b: nat)
    requires ReleasePre(rest, pos, grants, n, h)
    requires r in grants && r != h && grants[r].kind == Reader && grants[r].off <= b < grants[r].End() && Covers(rest, b)
    ensures Covers(Release(rest, grants[h].End() - pos), b)
    decreases |rest|
  {
    if pos < grants[h].End() {
      NextTile(rest, pos, grants, n, h);
      if rest[0].off <= b < rest[0].End() {
        OthersKeepEntry(rest[0], grants, n, h, r);
      } else {
        ReleaseCovers(rest[1..], rest[0].End(), grants, n, h, r, b);
      }
    }
  }

  lemma OthersKeepEntry(e: Entry, grants: map<Id, Grant>, n: nat, h: Id, r: Id)
    requires Good(e, grants, n) && e.kind == Reader && h != r
    requires h in Cover(grants, e.off, e.End()) && r in Cover(grants, e.off, e.End())
    ensures 1 < e.cnt
  {
    assert {h, r} <= Cover(grants, e.off, e.End());
    CardinalityMonotone({h, r}, Cover(grants, e.off, e.End()));
  }

  lemma {:induction false} CardinalityMonotone(a: set<Id>, b: set<Id>)
    requires a <= b
    ensures |a| <= |b|
  {
    if x :| x in a {
      CardinalityMonotone(a - {x}, b - {x});
    }
  }

  /** Of all the handles only the released one may leave the tree. */
  lemma {:induction false} ReleaseIds(rest: seq<Entry>, pos: nat, grants: map<Id, Grant>, n: nat, h: Id, id: Id)
    requires ReleasePre(rest, pos, grants, n, h) && id in grants && id != h && id.Handle?
    ensures HasId(Release(rest, grants[h].End() - pos), id) <==> HasId(rest, id)
    decreases |rest|
  {
    if pos < grants[h].End() {
      NextTile(rest, pos, grants, n, h);
      ReleaseIds(rest[1..], rest[0].End(), grants, n, h, id);
      if rest[0].id == id {
        OthersKeepEntry(rest[0], grants, n, h, id);
      }
    }
  }

  /** A sleeper's entry stays, or it is released and its sleepers are woken. */
  lemma {:induction false} ReleaseWaits(rest: seq<Entry>, len: nat, w: Sleep)
    requires WaitsOn(rest, w)
    ensures w.entry in Released(rest, len) || WaitsOn(Release(rest, len), w)
    decreases |rest|
  {
    if len != 0 && rest[0].len <= len {
      if !Waits(rest[0], w) {
        ReleaseWaits(rest[1..], len - rest[0].len, w);
      }
    }
  }

  // ----- from the start of the tree -----

  ghost predicate ReleaseAtPre(tree: seq<Entry>, lo: nat, grants: map<Id, Grant>, n: nat, h: Id) {
    && SortedFrom(tree, lo) && AllGood(tree, grants, n)
    && h in grants && h.Handle? && grants[h].kind == Reader && 0 < grants[h].len
    && Covered(tree, grants, grants[h].off) && lo <= grants[h].off
  }

  lemma StartTile(tree: seq<Entry>, lo: nat, grants: map<Id, Grant>, n: nat, h: Id)
    requires ReleaseAtPre(tree, lo, grants, n, h)
    ensures if tree != [] && tree[0].off < grants[h].off
            then && ReleaseAtPre(tree[1..], tree[0].End(), grants, n, h)
                 && Good(tree[0], grants - {h}, n)
                 && tree[0].id != h
            else ReleasePre(tree, grants[h].off, grants, n, h)
  {
    var g := grants[h];
    if tree != [] && tree[0].off < g.off {
      assert h in Cover(grants, tree[0].off, tree[0].End()) || tree[0].End() <= g.off;
      forall r, b: nat | r in grants && grants[r].kind == Reader && g.off <= b && grants[r].off <= b < grants[r].End()
        ensures Covers(tree[1..], b)
      {
        assert Covers(tree, b);
      }
      StayGood(tree[0], grants, n, h);
    }
  }

  lemma {:induction false} ReleaseAtGood(tree: seq<Entry>, lo: nat, grants: map<Id, Grant>, n: nat, h: Id)
    requires ReleaseAtPre(tree, lo, grants, n, h)
    ensures AllGood(ReleaseAt(tree, grants[h].off, grants[h].len), grants - {h}, n)
    ensures SortedFrom(ReleaseAt(tree, grants[h].off, grants[h].len), lo)
  {
    StartTile(tree, lo, grants, n, h);
    if tree != [] && tree[0].off < grants[h].off {
      ReleaseAtGood(tree[1..], tree[0].End(), grants, n, h);
    } else {
      ReleaseGood(tree, grants[h].off, grants, n, h);
      SortedLower(Release(tree, grants[h].len), grants[h].off, lo);
    }
  }

  lemma {:induction false} ReleaseAtCovers(tree: seq<Entry>, lo: nat, grants: map<Id, Grant>, n: nat, h: Id, r: Id,
                                           b: nat)
    requires ReleaseAtPre(tree, lo, grants, n, h)
    requires r in grants && r != h && grants[r].kind == Reader && grants[r].off <= b < grants[r].End() && Covers(tree, b)
    ensures Covers(ReleaseAt(tree, grants[h].off, grants[h].len), b)
  {
    StartTile(tree, lo, grants, n, h);
    if tree[0].off < grants[h].off {
      if !(tree[0].off <= b < tree[0].End()) {
        ReleaseAtCovers(tree[1..], tree[0].End(), grants, n, h, r, b);
      }
    } else {
      ReleaseCovers(tree, grants[h].off, grants, n, h, r, b);
    }
  }

  lemma {:induction false} ReleaseAtIds(tree: seq<Entry>, lo: nat, grants: map<Id, Grant>, n: nat, h: Id, id: Id)
    requires ReleaseAtPre(tree, lo, grants, n, h) && id in grants && id != h && id.Handle?
    ensures HasId(ReleaseAt(tree, grants[h].off, grants[h].len), id) <==> HasId(tree, id)
  {
    StartTile(tree, lo, grants, n, h);
    if tree != [] && tree[0].off < grants[h].off {
      ReleaseAtIds(tree[1..], tree[0].End(), grants, n, h, id);
    } else {
      ReleaseIds(tree, grants[h].off, grants, n, h, id);
    }
  }

  lemma {:induction false} ReleaseAtWaits(tree: seq<Entry>, off: nat, len: nat, w: Sleep)
    requires WaitsOn(tree, w)
    ensures w.entry in ReleasedAt(tree, off, len) || WaitsOn(ReleaseAt(tree, off, len), w)
  {
    if tree[0].off < off {
      if !Waits(tree[0], w) {
        ReleaseAtWaits(tree[1..], off, len, w);
      }
    } else {
      ReleaseWaits(tree, len, w);
    }
  }

  // ----- writers -----

  lemma {:induction false} HandleAt(tree: seq<Entry>, lo: nat, grants: map<Id, Grant>, n: nat, id: Id)
    requires SortedFrom(tree, lo) && AllGood(tree, grants, n) && HasId(tree, id) && id.Handle?
    ensures id in grants && lo <= grants[id].off
  {
    if tree[0].id != id {
      HandleAt(tree[1..], tree[0].End(), grants, n, id);
    }
  }

  /** A writer's own entry is the one at its offset, so exactly that entry is removed. */
  lemma {:induction false} RemoveWriter(tree: seq<Entry>, lo: nat, grants: map<Id, Grant>, n: nat, h: Id)
    requires SortedFrom(tree, lo) && AllGood(tree, grants, n) && HasId(tree, h)
    requires h in grants && h.Handle? && grants[h].kind == Writer
    ensures AllGood(ReleaseAt(tree, grants[h].off, grants[h].len), grants - {h}, n)
    ensures SortedFrom(ReleaseAt(tree, grants[h].off, grants[h].len), lo)
  {
    var g := grants[h];
    if tree[0].id == h {
      assert Release(tree, g.len) == tree[1..] by { assert Release(tree[1..], 0) == tree[1..]; }
      SortedLower(tree[1..], tree[0].End(), lo);
      OthersGood(tree[1..], tree[0].End(), grants, n, h);
    } else {
      HandleAt(tree[1..], tree[0].End(), grants, n, h);
      StayGood(tree[0], grants, n, h);
      RemoveWriter(tree[1..], tree[0].End(), grants, n, h);
    }
  }

  lemma {:induction false} OthersGood(tree: seq<Entry>, lo: nat, grants: map<Id, Grant>, n: nat, h: Id)
    requires SortedFrom(tree, lo) && AllGood(tree, grants, n)
    requires h in grants && h.Handle? && grants[h].kind == Writer && grants[h].off < lo
    ensures AllGood(tree, grants - {h}, n)
  {
    if tree != [] {
      StayGood(tree[0], grants, n, h);
      OthersGood(tree[1..], tree[0].End(), grants, n, h);
    }
  }

  lemma {:induction false} RemoveWriterKeeps(tree: seq<Entry>, lo: nat, grants: map<Id, Grant>, n: nat, h: Id, b: nat,
                                             id: Id, w: Sleep)
    requires SortedFrom(tree, lo) && AllGood(tree, grants, n) && HasId(tree, h)
    requires h in grants && h.Handle? && grants[h].kind == Writer
    ensures var tree' := ReleaseAt(tree, grants[h].off, grants[h].len);
            && (Covers(tree, b) && !(grants[h].off <= b < grants[h].End()) ==> Covers(tree', b))
            && (id != h ==> (HasId(tree', id) <==> HasId(tree, id)))
            && (WaitsOn(tree, w) && w.entry != h ==> WaitsOn(tree', w))
  {
    if tree[0].id == h {
      assert Release(tree, grants[h].len) == tree[1..] by { assert Release(tree[1..], 0) == tree[1..]; }
    } else {
      HandleAt(tree[1..], tree[0].End(), grants, n, h);
      RemoveWriterKeeps(tree[1..], tree[0].End(), grants, n, h, b, id, w);
    }
  }
}
