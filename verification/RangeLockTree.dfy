/**
 The range lock as the code runs it: one object whose tree is searched, split and bumped in place.

 Every public method is one critical section under the lock's mutex, and is proved to make exactly the step of the
 state machine that it implements.
 */
module RangeLockTree {
  import opened RangeLockModel
  import opened RangeLockInvariant
  import opened RangeLockReader
  import opened RangeLockRelease
  import opened RangeLockTheorems

  datatype Result = Granted(handle: Id) | Waiting(entry: Id)

  // ----- the recursive specifications, seen from the index where a search ends -----

  lemma TailSlices(tree: seq<Entry>, k: nat)
    requires 0 < k <= |tree|
    ensures tree[..k] == [tree[0]] + tree[1..][..k - 1] && tree[k..] == tree[1..][k - 1..]
  {
  }

  lemma {:induction false} BumpAtSearch(tree: seq<Entry>, off: nat, end: nat, now: nat)
    ensures var k := LowerBound(tree, off);
            && Bump(tree, off, end, now) == tree[..k] + Walk(tree[k..], off, end, now)
            && BumpDetached(tree, off, end) == WalkDetached(tree[k..], end)
  {
    var k := LowerBound(tree, off);
    if 0 < k {
      BumpAtSearch(tree[1..], off, end, now);
      TailSlices(tree, k);
      SeqAssociates([tree[0]], tree[1..][..k - 1], Walk(tree[k..], off, end, now));
    } else {
      assert tree[k..] == tree;
    }
  }

  lemma SeqAssociates(a: seq<Entry>, b: seq<Entry>, c: seq<Entry>)
    ensures (a + b) + c == a + (b + c)
  {
  }

  lemma {:induction false} InsertAtSearch(tree: seq<Entry>, e: Entry)
    ensures var k := LowerBound(tree, e.off); Insert(tree, e) == tree[..k] + ([e] + tree[k..])
  {
    var k := LowerBound(tree, e.off);
    if 0 < k {
      InsertAtSearch(tree[1..], e);
      TailSlices(tree, k);
      SeqAssociates([tree[0]], tree[1..][..k - 1], [e] + tree[k..]);
    } else {
      assert tree[k..] == tree;
    }
  }

  lemma {:induction false} ReleaseAtSearch(tree: seq<Entry>, off: nat, len: nat)
    ensures var k := LowerBound(tree, off);
            && ReleaseAt(tree, off, len) == tree[..k] + Release(tree[k..], len)
            && ReleasedAt(tree, off, len) == Released(tree[k..], len)
  {
    var k := LowerBound(tree, off);
    if 0 < k {
      ReleaseAtSearch(tree[1..], off, len);
      TailSlices(tree, k);
      SeqAssociates([tree[0]], tree[1..][..k - 1], Release(tree[k..], len));
    } else {
      assert tree[k..] == tree;
    }
  }

  lemma {:induction false} TouchesAtSearch(tree: seq<Entry>, off: nat, end: nat)
    ensures var k := LowerBound(tree, off); Touches(tree, off, end) <==> k < |tree| && tree[k].off < end
  {
    if 0 < LowerBound(tree, off) {
      TouchesAtSearch(tree[1..], off, end);
    }
  }

  predicate Straddles(tree: seq<Entry>, k: nat, off: nat)
    requires k <= |tree|
  {
    0 < k && off < tree[k - 1].End()
  }

  function CutTree(tree: seq<Entry>, k: nat, off: nat, now: nat): seq<Entry>
    requires 0 < k <= |tree| && tree[k - 1].off < off < tree[k - 1].End()
  {
    tree[..k - 1] + ([Front(tree[k - 1], off, now)] + ([Rear(tree[k - 1], off, now)] + tree[k..]))
  }

  lemma {:induction false} CutAtSearch(tree: seq<Entry>, lo: nat, off: nat, now: nat)
    requires SortedFrom(tree, lo)
    ensures var k := LowerBound(tree, off);
            if Straddles(tree, k, off)
            then && Cut(tree, off, now) == CutTree(tree, k, off, now)
                 && CutDetached(tree, off) == (if tree[k - 1].id.Handle? then {tree[k - 1].id} else {})
            else Cut(tree, off, now) == tree && CutDetached(tree, off) == {}
  {
    var k := LowerBound(tree, off);
    if 0 < k {
      if off < tree[0].End() {
        FirstAcross(tree, lo, off, now);
      } else {
        CutAtSearch(tree[1..], tree[0].End(), off, now);
        if 1 < k && Straddles(tree, k, off) {
          CutTreeTail(tree, k, off, now);
        }
      }
    }
  }

  lemma {:induction false} FirstAcross(tree: seq<Entry>, lo: nat, off: nat, now: nat)
    requires SortedFrom(tree, lo) && tree != [] && tree[0].off < off < tree[0].End()
    ensures LowerBound(tree, off) == 1
    ensures Cut(tree, off, now) == CutTree(tree, 1, off, now)
  {
  }

  lemma CutTreeTail(tree: seq<Entry>, k: nat, off: nat, now: nat)
    requires 1 < k <= |tree|
    requires Straddles(tree, k, off) && tree[k - 1].off < off
    ensures tree[1..][k - 2] == tree[k - 1]
    ensures CutTree(tree, k, off, now) == [tree[0]] + CutTree(tree[1..], k - 1, off, now)
  {
    TailSlices(tree, k - 1);
    assert tree[k..] == tree[1..][k - 1..];
  }

  // ----- what the walk may rely on -----

  ghost predicate WalkOk(rest: seq<Entry>, pos: nat, grants: map<Id, Grant>, n: nat, off: nat, len: nat) {
    SortedFrom(rest, pos) && AllGood(rest, grants, n) && Admits(rest, off, len)
  }

  lemma {:induction false} WalkOkAtSearch(tree: seq<Entry>, lo: nat, grants: map<Id, Grant>, n: nat, off: nat, len: nat)
    requires WalkOk(tree, lo, grants, n, off, len)
    ensures WalkOk(tree[LowerBound(tree, off)..], off, grants, n, off, len)
  {
    var k := LowerBound(tree, off);
    if 0 < k {
      WalkOkAtSearch(tree[1..], tree[0].End(), grants, n, off, len);
      TailSlices(tree, k);
    } else {
      assert tree[k..] == tree;
    }
  }

  /** The entry a split starts from is a plain reader on which nobody sleeps. */
  lemma {:induction false} StraddledIsFree(tree: seq<Entry>, grants: map<Id, Grant>, n: nat, off: nat, len: nat, i: nat)
    requires AllGood(tree, grants, n) && Admits(tree, off, len) && 0 < len
    requires i < |tree| && tree[i].Overlaps(off, off + len)
    ensures Unshared(tree[i]) && tree[i].kind == Reader && !tree[i].writeWanted && !tree[i].readWanted
    decreases i
  {
    if 0 < i {
      StraddledIsFree(tree[1..], grants, n, off, len, i - 1);
    }
  }

  /** The entry that runs across the start of the range can be split. */
  lemma {:induction false} BeforeIsFree(tree: seq<Entry>, grants: map<Id, Grant>, n: nat, off: nat, len: nat, k: nat)
    requires AllGood(tree, grants, n) && Admits(tree, off, len) && 0 < len && SortedFrom(tree, 0)
    requires k == LowerBound(tree, off) && k <= |tree|
    ensures Straddles(tree, k, off) ==>
              tree[k - 1].off < off && Unshared(tree[k - 1]) && !tree[k - 1].writeWanted && !tree[k - 1].readWanted
  {
    if Straddles(tree, k, off) {
      BeforeSearch(tree, off, k - 1);
      StraddledIsFree(tree, grants, n, off, len, k - 1);
    }
  }

  lemma {:induction false} BeforeSearch(tree: seq<Entry>, off: nat, i: nat)
    requires i < LowerBound(tree, off) <= |tree|
    ensures tree[i].off < off
  {
    if 0 < i {
      BeforeSearch(tree[1..], off, i - 1);
    }
  }

  ghost predicate Unshared(e: Entry) {
    e.id.Handle? ==> e.cnt == 1
  }

  /** How the tree after the cut looks from the index where the search for `off` ends. */
  lemma {:induction false} SearchAfterCut(tree: seq<Entry>, off: nat, now: nat)
    requires SortedFrom(tree, 0)
    ensures var k := LowerBound(tree, off);
            LowerBound(Cut(tree, off, now), off) == k
  {
    CutAtSearch(tree, 0, off, now);
    var k := LowerBound(tree, off);
    if Straddles(tree, k, off) {
      var cut := CutTree(tree, k, off, now);
      BoundIs(cut, off, k);
    }
  }

  lemma {:induction false} BoundIs(tree: seq<Entry>, off: nat, k: nat)
    requires k <= |tree| && (forall i :: 0 <= i < k ==> tree[i].off < off) && (k < |tree| ==> off <= tree[k].off)
    ensures LowerBound(tree, off) == k
  {
    if 0 < k {
      BoundIs(tree[1..], off, k - 1);
    }
  }

  lemma {:induction false} IndexFrom(tree: seq<Entry>, lo: nat, i: nat)
    requires SortedFrom(tree, lo) && i < |tree|
    ensures lo <= tree[i].off && SortedFrom(tree[i + 1..], tree[i].End())
    decreases i
  {
    if 0 < i {
      IndexFrom(tree[1..], tree[0].End(), i - 1);
      TailSlices(tree, i + 1);
    }
  }

  /** Entries before the one that precedes `off` cannot block. */
  lemma {:induction false} BlockerFrom(tree: seq<Entry>, lo: nat, off: nat, len: nat, i: nat)
    requires SortedFrom(tree, lo) && i < |tree| && tree[i].off <= off
    ensures ReaderBlocker(tree, off, len) == i + ReaderBlocker(tree[i..], off, len)
    decreases i
  {
    if 0 < i {
      IndexFrom(tree[1..], tree[0].End(), i - 1);
      BlockerFrom(tree[1..], tree[0].End(), off, len, i - 1);
      TailSlices(tree, i);
    } else {
      assert tree[i..] == tree;
    }
  }

  /** Blockers at or after the search result, once the entry at or before `off` is known not to block. */
  lemma {:induction false} BlockerAfter(tree: seq<Entry>, off: nat, len: nat, prev: int)
    requires SortedFrom(tree, 0) && 0 < len && -1 <= prev < |tree|
    requires 0 <= prev ==> tree[prev].off <= off && !BlocksReader(tree[prev], off, len)
    ensures ReaderBlocker(tree, off, len) == prev + 1 + ReaderBlocker(tree[prev + 1..], off, len)
    ensures 0 <= prev ==> SortedFrom(tree[prev + 1..], tree[prev].End())
  {
    if 0 <= prev {
      BlockerFrom(tree, 0, off, len, prev);
      IndexFrom(tree, 0, prev);
      assert tree[prev..][1..] == tree[prev + 1..];
    } else {
      assert tree[0..] == tree;
    }
  }

  lemma {:induction false} BeyondBlocker(tree: seq<Entry>, lo: nat, off: nat, len: nat)
    requires SortedFrom(tree, lo) && off + len <= lo
    ensures ReaderBlocker(tree, off, len) == |tree|
  {
    if tree != [] {
      BeyondBlocker(tree[1..], tree[0].End(), off, len);
    }
  }

  lemma Regroup(a: seq<Entry>, x: Entry, b: seq<Entry>)
    ensures a + ([x] + b) == (a + [x]) + b
  {
  }

  lemma InsertSlices(tree: seq<Entry>, i: nat, x: Entry)
    requires i <= |tree|
    ensures var tree' := tree[..i] + ([x] + tree[i..]); tree'[..i + 1] == tree[..i] + [x] && tree'[i + 1..] == tree[i..]
  {
  }

  lemma UpdateSlices(tree: seq<Entry>, i: nat, x: Entry)
    requires i < |tree|
    ensures tree[i := x][..i + 1] == tree[..i] + [x] && tree[i := x][i + 1..] == tree[i + 1..]
  {
  }

  lemma EntryIsFree(rest: seq<Entry>, pos: nat, grants: map<Id, Grant>, n: nat, off: nat, len: nat)
    requires WalkOk(rest, pos, grants, n, off, len) && rest != [] && off <= pos && rest[0].off < off + len
    ensures Unshared(rest[0]) && rest[0].kind == Reader && !rest[0].writeWanted && !rest[0].readWanted
    ensures WalkOk(rest[1..], rest[0].End(), grants, n, off, len)
  {
  }

  lemma {:induction false} LastDetached(rest: seq<Entry>, end: nat)
    requires SortedFrom(rest, 0) && rest != [] && rest[0].off < end <= rest[0].End()
    ensures WalkDetached(rest, end) == if rest[0].id.Handle? then {rest[0].id} else {}
  {
    assert WalkDetached(rest[1..], end) == {};
  }

  lemma {:induction false} NothingLeft(rest: seq<Entry>, pos: nat, end: nat, now: nat)
    requires SortedFrom(rest, pos) && end <= pos
    ensures Walk(rest, pos, end, now) == rest
  {
  }

  lemma {:induction false} UncutWhenUntouched(tree: seq<Entry>, off: nat, end: nat, now: nat)
    requires SortedFrom(tree, 0) && off < end
    ensures !Touches(Cut(tree, off, now), off, end) ==> Cut(tree, off, now) == tree && CutDetached(tree, off) == {}
  {
    CutAtSearch(tree, 0, off, now);
    SearchAfterCut(tree, off, now);
    TouchesAtSearch(Cut(tree, off, now), off, end);
  }

  lemma {:induction false} AddReaderIs(s: State, off: nat, len: nat, tree: seq<Entry>, detached: set<Id>)
    requires SortedFrom(s.tree, 0) && 0 < len
    requires var cut, h := Cut(s.tree, off, s.now), Handle(s.now);
             if Touches(cut, off, off + len)
             then && tree == Bump(cut, off, off + len, s.now)
                  && detached == s.detached + CutDetached(s.tree, off) + {h} + BumpDetached(cut, off, off + len)
             else && tree == Insert(cut, Entry(h, off, len, 1, Reader, false, false))
                  && detached == s.detached + CutDetached(s.tree, off)
    ensures AddReader(s, off, len) ==
            s.(tree := tree, grants := s.grants[Handle(s.now) := Grant(off, len, Reader)], detached := detached,
               now := s.now + 1)
  {
    UncutWhenUntouched(s.tree, off, off + len, s.now);
    if Touches(Cut(s.tree, off, s.now), off, off + len) {
      assert detached == AddReader(s, off, len).detached;
    }
  }

  /** The entry of a handle that is in the tree is the one its offset leads to. */
  lemma OwnEntry(s: State, h: Id)
    requires Inv(s) && h in s.grants && h !in s.detached
    ensures var g, k := s.grants[h], LowerBound(s.tree, s.grants[h].off);
            && k < |s.tree| && s.tree[k].id == h
            && Release(s.tree[k..], g.len) == s.tree[k + 1..] && Released(s.tree[k..], g.len) == {h}
  {
    assert HandleOk(s.tree, s.grants, s.detached, h);
    OwnEntryAt(s.tree, 0, s.grants, s.now, h);
    var k := LowerBound(s.tree, s.grants[h].off);
    assert s.tree[k..][1..] == s.tree[k + 1..];
    assert Release(s.tree[k + 1..], 0) == s.tree[k + 1..];
  }

  lemma {:induction false} OwnEntryAt(tree: seq<Entry>, lo: nat, grants: map<Id, Grant>, n: nat, h: Id)
    requires SortedFrom(tree, lo) && AllGood(tree, grants, n) && HasId(tree, h) && h.Handle? && h in grants
    ensures var k := LowerBound(tree, grants[h].off);
            k < |tree| && tree[k].id == h && tree[k].len == grants[h].len && tree[k].cnt == 1
  {
    if tree[0].id != h {
      HandleAt(tree[1..], tree[0].End(), grants, n, h);
      OwnEntryAt(tree[1..], tree[0].End(), grants, n, h);
    }
  }

  lemma {:induction false} TilesFromSearch(tree: seq<Entry>, lo: nat, grants: map<Id, Grant>, n: nat, h: Id)
    requires ReleaseAtPre(tree, lo, grants, n, h)
    ensures ReleasePre(tree[LowerBound(tree, grants[h].off)..], grants[h].off, grants, n, h)
  {
    var k := LowerBound(tree, grants[h].off);
    StartTile(tree, lo, grants, n, h);
    if 0 < k {
      TilesFromSearch(tree[1..], tree[0].End(), grants, n, h);
      TailSlices(tree, k);
    } else {
      assert tree[k..] == tree;
    }
  }

  lemma {:induction false} AddPreCut(tree: seq<Entry>, grants: map<Id, Grant>, now: nat, off: nat, len: nat)
    requires AddPre(tree, grants, now, off, len)
    ensures WalkOk(Cut(tree, off, now), 0, grants, now + 1, off, len)
  {
    BumpReaderPre(tree, grants, now, off, len);
  }

  // ----- the object -----

  class RangeLock {
    var tree: seq<Entry>
    var handles: map<Id, Grant>
    var detached: set<Id>
    var now: nat
    ghost var sleepers: map<Tid, Sleep>
    ghost var pending: set<Id>

    ghost function View(): State
      reads this
    {
      State(tree, handles, detached, sleepers, pending, now)
    }

    ghost predicate Valid()
      reads this
    {
      Inv(View())
    }

    constructor ()
      ensures Valid() && View() == INIT
    {
      tree, handles, detached, now := [], map[], {}, 0;
      sleepers, pending := map[], {};
      new;
      assert forall h :: HandleOk([], map[], {}, h);
    }

    /** Where the tree search for `off` ends: at the first entry that does not start before `off`. */
    method Search(off: nat) returns (k: nat)
      ensures k == LowerBound(tree, off)
    {
      k := 0;
      while k < |tree| && tree[k].off < off
        invariant k <= |tree| && LowerBound(tree, off) == k + LowerBound(tree[k..], off)
      {
        k := k + 1;
        assert tree[k..] == tree[k - 1..][1..];
      }
    }

    method InsertAt(i: nat, e: Entry)
      requires i <= |tree|
      modifies this`tree
      ensures tree == old(tree)[..i] + ([e] + old(tree)[i..])
    {
      tree := tree[..i] + ([e] + tree[i..]);
    }

    /** Replaces an original lock by a proxy; nobody may sleep on it. */
    method ProxifyAt(i: nat)
      requires i < |tree| && Unshared(tree[i])
      requires !tree[i].writeWanted && !tree[i].readWanted
      modifies this`tree, this`detached
      ensures tree == old(tree)[i := Proxify(old(tree)[i], now)]
      ensures detached == old(detached) + if old(tree)[i].id.Handle? then {old(tree)[i].id} else {}
    {
      var rl := tree[i];
      if rl.id.Handle? {
        detached := detached + {rl.id};
        tree := tree[i := Entry(Proxy(now, rl.off), rl.off, rl.len, 1, Reader, false, false)];
      }
    }

    /** Splits an entry in two proxies at `at`. */
    method SplitAt(i: nat, at: nat)
      requires i < |tree| && tree[i].off < at < tree[i].End() && Unshared(tree[i])
      requires !tree[i].writeWanted && !tree[i].readWanted
      modifies this`tree, this`detached
      ensures tree == old(tree)[..i] + ([Front(old(tree)[i], at, now)] + ([Rear(old(tree)[i], at, now)] + old(tree)[i + 1..]))
      ensures detached == old(detached) + if old(tree)[i].id.Handle? then {old(tree)[i].id} else {}
    {
      var rl := tree[i];
      var rear := Entry(Proxy(now, at), at, rl.End() - at, rl.cnt, Reader, false, false);
      ProxifyAt(i);
      var front := tree[i].(len := at - rl.off);
      tree := tree[..i] + ([front] + ([rear] + tree[i + 1..]));
    }

    /** Finds the first overlapping entry that a writer holds or waits for. */
    method FindReaderBlocker(off: nat, len: nat) returns (i: nat)
      requires SortedFrom(tree, 0) && 0 < len
      ensures i == ReaderBlocker(tree, off, len)
    {
      var k := Search(off);
      var prev: int := if k < |tree| && tree[k].off == off then k else k - 1;
      if 0 <= prev && off < tree[prev].End() {
        if tree[prev].kind == Writer || tree[prev].writeWanted {
          BlockerFrom(tree, 0, off, len, prev);
          return prev;
        }
      }
      BlockerAfter(tree, off, len, prev);
      if 0 <= prev && off + len < tree[prev].End() {
        BeyondBlocker(tree[prev + 1..], tree[prev].End(), off, len);
        return |tree|;
      }
      i := FindBlockerAfter(off, len, prev + 1);
    }

    method FindBlockerAfter(off: nat, len: nat, from: nat) returns (i: nat)
      requires from <= |tree| && SortedFrom(tree[from..], 0) && 0 < len
      requires from < |tree| ==> off < tree[from].End()
      ensures i == from + ReaderBlocker(tree[from..], off, len)
    {
      i := from;
      while i < |tree|
        invariant from <= i <= |tree|
        invariant from + ReaderBlocker(tree[from..], off, len) == i + ReaderBlocker(tree[i..], off, len)
        invariant SortedFrom(tree[i..], 0) && (i < |tree| ==> off < tree[i].End())
      {
        assert tree[i..][1..] == tree[i + 1..];
        if off + len <= tree[i].off {
          BeyondBlocker(tree[i..], off + len, off, len);
          return |tree|;
        }
        if tree[i].kind == Writer || tree[i].writeWanted {
          return;
        }
        if off + len <= tree[i].End() {
          BeyondBlocker(tree[i + 1..], tree[i].End(), off, len);
          return |tree|;
        }
        i := i + 1;
      }
    }

    /** Adds a reference to everything in the range, walking forward from entry `k` and filling the gaps. */
    method BumpFrom(k: nat, off: nat, len: nat)
      requires k < |tree| && tree[k].off < off + len && 0 < len
      requires WalkOk(tree[k..], off, handles, now + 1, off, len)
      modifies this`tree, this`detached
      ensures tree == old(tree)[..k] + Walk(old(tree)[k..], off, off + len, now)
      ensures detached == old(detached) + WalkDetached(old(tree)[k..], off + len)
    {
      var i: nat, pos: nat, end: nat := k, off, off + len;
      ghost var target := old(tree)[..k] + Walk(old(tree)[k..], off, end, now);
      ghost var gone := old(detached) + WalkDetached(old(tree)[k..], end);
      while i < |tree| && tree[i].off < end
        invariant i <= |tree| && off <= pos < end
        invariant tree[..i] + Walk(tree[i..], pos, end, now) == target
        invariant detached + WalkDetached(tree[i..], end) == gone
        invariant WalkOk(tree[i..], pos, handles, now + 1, off, len)
        decreases |tree| - i
      {
        var last: bool;
        last, i, pos := BumpStep(i, pos, off, len);
        if last {
          return;
        }
      }
      InsertAt(i, NewProxy(pos, end - pos, now));
    }

    /** Fills the gap before entry `i`, if there is one, and bumps the entry. */
    method BumpStep(i: nat, pos: nat, off: nat, len: nat) returns (last: bool, next: nat, reach: nat)
      requires i < |tree| && off <= pos < off + len && tree[i].off < off + len
      requires WalkOk(tree[i..], pos, handles, now + 1, off, len)
      modifies this`tree, this`detached
      ensures last ==> tree == old(tree)[..i] + Walk(old(tree)[i..], pos, off + len, now)
      ensures last ==> detached == old(detached) + WalkDetached(old(tree)[i..], off + len)
      ensures !last ==> next <= |tree| && |tree| - next < |old(tree)| - i && off <= reach < off + len
      ensures !last ==> tree[..next] + Walk(tree[next..], reach, off + len, now) ==
                        old(tree)[..i] + Walk(old(tree)[i..], pos, off + len, now)
      ensures !last ==> detached + WalkDetached(tree[next..], off + len) ==
                        old(detached) + WalkDetached(old(tree)[i..], off + len)
      ensures !last ==> WalkOk(tree[next..], reach, handles, now + 1, off, len)
    {
      EntryIsFree(tree[i..], pos, handles, now + 1, off, len);
      SortedLower(tree[i..], pos, 0);
      next, reach := ReachEntry(i, pos, off + len);
      assert tree[next..][1..] == tree[next + 1..];
      last := BumpEntry(next, off + len);
      if !last {
        reach := tree[next].End();
        next := next + 1;
      }
    }

    /** Fills the gap before entry `i`, if there is one. */
    method ReachEntry(i: nat, pos: nat, end: nat) returns (next: nat, reach: nat)
      requires i < |tree| && tree[i].off < end && pos < end && SortedFrom(tree[i..], pos)
      modifies this`tree
      ensures next < |tree| && tree[next..] == old(tree)[i..] && pos <= reach <= tree[next].off && SortedFrom(tree[next..], reach)
      ensures tree[next] == old(tree)[i]
      ensures tree[..next] + WalkEntry(tree[next..], end, now) == old(tree)[..i] + Walk(old(tree)[i..], pos, end, now)
    {
      next, reach := i, pos;
      assert tree[i..][0] == tree[i];
      if pos < tree[i].off {
        FillGap(i, pos, end);
        next := i + 1;
        assert tree[next..][0] == tree[next];
        reach := tree[next].off;
      }
    }

    method FillGap(i: nat, pos: nat, end: nat)
      requires i < |tree| && pos < tree[i].off < end
      modifies this`tree
      ensures |tree| == |old(tree)| + 1 && tree[i + 1..] == old(tree)[i..]
      ensures tree[..i + 1] + WalkEntry(tree[i + 1..], end, now) == old(tree)[..i] + Walk(old(tree)[i..], pos, end, now)
    {
      var gap := NewProxy(pos, tree[i].off - pos, now);
      InsertSlices(tree, i, gap);
      Regroup(tree[..i], gap, WalkEntry(tree[i..], end, now));
      InsertAt(i, gap);
    }

    /** Bumps entry `i`, which starts inside the range; true if the range ends with it or inside it. */
    method BumpEntry(i: nat, end: nat) returns (last: bool)
      requires i < |tree| && tree[i].off < end && SortedFrom(tree[i..], 0)
      requires Unshared(tree[i]) && !tree[i].writeWanted && !tree[i].readWanted
      modifies this`tree, this`detached
      ensures last <==> end <= old(tree)[i].End()
      ensures last ==> tree == old(tree)[..i] + WalkEntry(old(tree)[i..], end, now)
      ensures last ==> detached == old(detached) + WalkDetached(old(tree)[i..], end)
      ensures !last ==> |tree| == |old(tree)| && tree[i].End() == old(tree)[i].End() && tree[i + 1..] == old(tree)[i + 1..]
      ensures !last ==> tree[..i + 1] + Walk(tree[i + 1..], tree[i].End(), end, now) ==
                        old(tree)[..i] + WalkEntry(old(tree)[i..], end, now)
      ensures !last ==> detached + WalkDetached(tree[i + 1..], end) == old(detached) + WalkDetached(old(tree)[i..], end)
    {
      ghost var rest := tree[i..];
      assert rest[0] == tree[i] && rest[1..] == tree[i + 1..];
      if end < tree[i].End() {
        SplitLast(i, end);
        LastDetached(rest, end);
        last := true;
      } else {
        BumpWhole(i);
        Regroup(old(tree)[..i], tree[i], Walk(rest[1..], rest[0].End(), end, now));
        last := end == tree[i].End();
        if last {
          LastDetached(rest, end);
          NothingLeft(rest[1..], rest[0].End(), end, now);
        }
      }
    }

    method BumpWhole(i: nat)
      requires i < |tree| && Unshared(tree[i]) && !tree[i].writeWanted && !tree[i].readWanted
      modifies this`tree, this`detached
      ensures |tree| == |old(tree)| && tree[i] == Proxify(old(tree)[i], now).(cnt := Proxify(old(tree)[i], now).cnt + 1)
      ensures tree[..i + 1] == old(tree)[..i] + [tree[i]] && tree[i + 1..] == old(tree)[i + 1..]
      ensures tree == old(tree)[..i] + ([tree[i]] + old(tree)[i + 1..])
      ensures detached == old(detached) + if old(tree)[i].id.Handle? then {old(tree)[i].id} else {}
    {
      ProxifyAt(i);
      tree := tree[i := tree[i].(cnt := tree[i].cnt + 1)];
    }

    method SplitLast(i: nat, end: nat)
      requires i < |tree| && tree[i].off < end < tree[i].End() && Unshared(tree[i])
      requires !tree[i].writeWanted && !tree[i].readWanted
      modifies this`tree, this`detached
      ensures tree == old(tree)[..i] + WalkEntry(old(tree)[i..], end, now)
      ensures detached == old(detached) + if old(tree)[i].id.Handle? then {old(tree)[i].id} else {}
    {
      ghost var rest := tree[i..];
      assert rest[1..] == tree[i + 1..];
      SplitAt(i, end);
      tree := tree[i := tree[i].(cnt := tree[i].cnt + 1)];
    }

    /** Splits the entry that runs across `off`, if there is one; `k` is where the search for `off` ended. */
    method CutAt(k: nat, off: nat)
      requires SortedFrom(tree, 0) && k == LowerBound(tree, off) && k <= |tree|
      requires Straddles(tree, k, off) ==>
                 tree[k - 1].off < off && Unshared(tree[k - 1]) && !tree[k - 1].writeWanted && !tree[k - 1].readWanted
      modifies this`tree, this`detached
      ensures tree == Cut(old(tree), off, now) && k == LowerBound(tree, off)
      ensures detached == old(detached) + CutDetached(old(tree), off)
    {
      CutAtSearch(tree, 0, off, now);
      SearchAfterCut(tree, off, now);
      if 0 < k && off < tree[k - 1].End() {
        SplitAt(k - 1, off);
      }
    }

    /** The range starts at no entry's inside any more: bump what it overlaps, or insert the lock itself. */
    method AddAfterCut(k: nat, off: nat, len: nat, h: Id)
      requires WalkOk(tree, 0, handles, now + 1, off, len) && 0 < len && k == LowerBound(tree, off)
      modifies this`tree, this`detached
      ensures Touches(old(tree), off, off + len) ==>
                && tree == Bump(old(tree), off, off + len, now)
                && detached == old(detached) + {h} + BumpDetached(old(tree), off, off + len)
      ensures !Touches(old(tree), off, off + len) ==>
                tree == Insert(old(tree), Entry(h, off, len, 1, Reader, false, false)) && detached == old(detached)
    {
      TouchesAtSearch(tree, off, off + len);
      if k < |tree| && tree[k].off < off + len {
        BumpAtSearch(tree, off, off + len, now);
        WalkOkAtSearch(tree, 0, handles, now + 1, off, len);
        detached := detached + {h};
        BumpFrom(k, off, len);
      } else {
        InsertAtSearch(tree, Entry(h, off, len, 1, Reader, false, false));
        InsertAt(k, Entry(h, off, len, 1, Reader, false, false));
      }
    }

    /** Adds a reader that nothing blocks; `k` is where the search for its offset ended. */
    method InsertReader(k: nat, off: nat, len: nat) returns (h: Id)
      requires AddPre(tree, handles, now, off, len) && k == LowerBound(tree, off)
      modifies this`tree, this`handles, this`detached, this`now
      ensures h == Handle(old(now)) && View() == AddReader(old(View()), off, len)
    {
      ghost var s := View();
      h := Handle(now);
      AddPreCut(tree, handles, now, off, len);
      BeforeIsFree(tree, handles, now, off, len, k);
      CutAt(k, off);
      AddAfterCut(k, off, len, h);
      AddReaderIs(s, off, len, tree, detached);
      handles, now := handles[h := Grant(off, len, Reader)], now + 1;
    }

    /** Puts thread `t` to sleep on entry `i`. */
    method Wait(ghost t: Tid, i: nat, want: Want, ghost off: nat, ghost len: nat) returns (r: Result)
      requires i < |tree|
      modifies this`tree, this`sleepers
      ensures r == Waiting(old(tree)[i].id) && View() == SleepOn(old(View()), t, i, want, off, len)
    {
      var rl := tree[i];
      tree := tree[i := if want == WantWrite then rl.(writeWanted := true) else rl.(readWanted := true)];
      sleepers := sleepers[t := Sleep(rl.id, want, off, len)];
      r := Waiting(rl.id);
    }

    /** One attempt to lock a range shared: the thread gets it or goes to sleep. */
    method LockReader(ghost t: Tid, off: nat, len: nat) returns (r: Result)
      requires Valid() && Enabled(View(), OpLockReader(t, off, len))
      modifies this
      ensures Valid() && View() == Step(old(View()), OpLockReader(t, off, len))
      ensures r.Granted? <==> t !in sleepers
      ensures r.Granted? ==> r.handle !in old(handles) && handles == old(handles)[r.handle := Grant(off, len, Reader)]
      ensures r.Waiting? ==> sleepers == old(sleepers)[t := Sleep(r.entry, WantRead, off, len)] && handles == old(handles)
      ensures r.Waiting? ==> exists e :: e in old(tree) && e.id == r.entry && e.Overlaps(off, off + len)
    {
      StepInv(View(), OpLockReader(t, off, len));
      AdmitsBlocker(tree, off, len);
      FreshHandle(tree, handles, now);
      var i := FindReaderBlocker(off, len);
      if i < |tree| {
        assert tree[i] in tree;
        r := Wait(t, i, WantRead, off, len);
      } else {
        var k := Search(off);
        var h := InsertReader(k, off, len);
        r := Granted(h);
      }
    }

    /** Finds the entry a writer must wait for, looking only at the neighbours of the insertion point. */
    method FindWriterBlocker(off: nat, len: nat) returns (i: nat)
      requires SortedFrom(tree, 0) && 0 < len
      ensures i == WriterBlocker(tree, off, len)
      ensures i < |tree| ==> tree[i].Overlaps(off, off + len)
      ensures i == |tree| <==> Clear(tree, off, off + len)
    {
      BlockerOverlaps(tree, 0, off, len);
      NeighboursSuffice(tree, 0, off, len);
      var k := Search(off);
      if k < |tree| && tree[k].off == off {
        return k;
      }
      if k < |tree| && tree[k].off < off + len {
        return k;
      }
      if 0 < k && off < tree[k - 1].End() {
        return k - 1;
      }
      return |tree|;
    }

    /** One attempt to lock a range exclusively. */
    method LockWriter(ghost t: Tid, off: nat, len: nat) returns (r: Result)
      requires Valid() && Enabled(View(), OpLockWriter(t, off, len))
      modifies this
      ensures Valid() && View() == Step(old(View()), OpLockWriter(t, off, len))
      ensures r.Granted? <==> t !in sleepers
      ensures r.Granted? ==> r.handle !in old(handles) && handles == old(handles)[r.handle := Grant(off, len, Writer)]
      ensures r.Waiting? ==> sleepers == old(sleepers)[t := Sleep(r.entry, WantWrite, off, len)] && handles == old(handles)
      ensures r.Waiting? ==> exists e :: e in old(tree) && e.id == r.entry && e.Overlaps(off, off + len)
    {
      StepInv(View(), OpLockWriter(t, off, len));
      FreshHandle(tree, handles, now);
      var i := FindWriterBlocker(off, len);
      if i < |tree| {
        assert tree[i] in tree;
        r := Wait(t, i, WantWrite, off, len);
      } else {
        r := Granted(Handle(now));
        InsertWriter(off, len);
      }
    }

    /** One turn of the writer's loop for a file: it appends at the present end of the file, and takes the whole file
        if the block size must grow. A lock that is granted covers the bytes to be written. */
    method LockForWrite(ghost t: Tid, z: Znode, off: nat, len: nat, append: bool) returns (r: Result)
      requires Valid() && t !in sleepers && 0 < len && WriterOff(z, off, append) + len <= UINT64_MAX
      modifies this
      ensures Valid()
      ensures var (o, n) := WriterRange(z, off, len, append);
              Enabled(old(View()), OpLockWriter(t, o, n)) && View() == Step(old(View()), OpLockWriter(t, o, n))
      ensures r.Granted? <==> t !in sleepers
      ensures r.Granted? ==> r.handle in handles
      ensures r.Granted? ==>
                var g, start := handles[r.handle], if append then z.size else off;
                var large := start + len > z.blksz || z.size > z.blksz;
                && g.kind == Writer && g.off <= start && start + len <= g.End()
                && g == if large && (!IsPowerOfTwo(z.blksz) || z.blksz < z.maxBlksz) then Grant(0, UINT64_MAX, Writer)
                        else Grant(start, len, Writer)
      ensures r.Waiting? ==>
                var (o, n) := WriterRange(z, off, len, append);
                sleepers == old(sleepers)[t := Sleep(r.entry, WantWrite, o, n)] && handles == old(handles)
    {
      var o, n := off, len;
      if append {
        o := z.size;
      }
      var endSize := if z.size < o + len then o + len else z.size;
      if endSize > z.blksz && (!IsPowerOfTwo(z.blksz) || z.blksz < z.maxBlksz) {
        o, n := 0, UINT64_MAX;
      }
      r := LockWriter(t, o, n);
    }

    method InsertWriter(off: nat, len: nat)
      requires SortedFrom(tree, 0)
      modifies this`tree, this`handles, this`now
      ensures View() == AddWriter(old(View()), off, len)
    {
      var e := Entry(Handle(now), off, len, 1, Writer, false, false);
      var k := Search(off);
      InsertAtSearch(tree, e);
      InsertAt(k, e);
      handles, now := handles[e.id := Grant(off, len, Writer)], now + 1;
    }

    /** Drops one reference from entry `i`; an entry without references leaves the tree and its sleepers wake up. */
    method ReleaseOne(i: nat, left: nat) returns (next: nat)
      requires i < |tree| && 0 < tree[i].len <= left && 0 < tree[i].cnt
      modifies this`tree, this`sleepers
      ensures i <= next <= |tree| && tree[next..] == old(tree)[i + 1..]
      ensures tree[..next] + Release(tree[next..], left - old(tree)[i].len) ==
              old(tree)[..i] + Release(old(tree)[i..], left)
      ensures sleepers == Awake(old(sleepers), if old(tree)[i].cnt == 1 then {old(tree)[i].id} else {})
    {
      ghost var rest := tree[i..];
      assert rest[0] == tree[i] && rest[1..] == tree[i + 1..];
      var rl := tree[i];
      if rl.cnt == 1 {
        next := i;
        tree := tree[..i] + tree[i + 1..];
        sleepers := Awake(sleepers, {rl.id});
      } else {
        next := i + 1;
        UpdateSlices(tree, i, rl.(cnt := rl.cnt - 1));
        Regroup(tree[..i], rl.(cnt := rl.cnt - 1), Release(rest[1..], left - rl.len));
        tree := tree[i := rl.(cnt := rl.cnt - 1)];
      }
    }

    /** The next proxy of a reader loses a reference. */
    method ReleaseTile(i: nat, left: nat, ghost pos: nat, ghost h: Id) returns (next: nat, size: nat)
      requires i <= |tree| && h in handles && 0 < left && pos + left == handles[h].End()
      requires ReleasePre(tree[i..], pos, handles, now, h)
      modifies this`tree, this`sleepers
      ensures next <= |tree| && 0 < size <= left && ReleasePre(tree[next..], pos + size, handles, now, h)
      ensures tree[..next] + Release(tree[next..], left - size) == old(tree)[..i] + Release(old(tree)[i..], left)
      ensures Awake(sleepers, Released(tree[next..], left - size)) == Awake(old(sleepers), Released(old(tree)[i..], left))
    {
      ghost var rest := tree[i..];
      NextTile(rest, pos, handles, now, h);
      assert rest[0] == tree[i] && rest[1..] == tree[i + 1..];
      size := tree[i].len;
      next := ReleaseOne(i, left);
    }

    /** Drops one reference from each proxy of a reader; the walk ends exactly when `len` bytes are released. */
    method ReleaseFrom(k: nat, len: nat, ghost h: Id)
      requires k <= |tree| && h in handles && handles[h].len == len && ReleasePre(tree[k..], handles[h].off, handles, now, h)
      modifies this`tree, this`sleepers
      ensures tree == old(tree)[..k] + Release(old(tree)[k..], len)
      ensures sleepers == Awake(old(sleepers), Released(old(tree)[k..], len))
    {
      var i: nat, left: nat := k, len;
      ghost var pos := handles[h].off;
      ghost var target := tree[..k] + Release(tree[k..], len);
      ghost var quiet := Awake(sleepers, Released(tree[k..], len));
      while left != 0
        invariant i <= |tree| && pos + left == handles[h].End()
        invariant tree[..i] + Release(tree[i..], left) == target
        invariant Awake(sleepers, Released(tree[i..], left)) == quiet
        invariant ReleasePre(tree[i..], pos, handles, now, h)
        decreases left
      {
        var size;
        i, size := ReleaseTile(i, left, pos, h);
        left := left - size;
        pos := pos + size;
      }
      assert tree == target;
    }

    /** Unlocks a range and returns once everybody who may proceed has been woken or is about to be. */
    method Unlock(h: Id)
      requires Valid() && Enabled(View(), OpUnlock(h))
      modifies this
      ensures Valid() && View() == Step(old(View()), OpUnlock(h))
    {
      StepInv(View(), OpUnlock(h));
      var rl := handles[h];
      var k := Search(rl.off);
      if rl.kind == Writer {
        UnlockWriter(h, k);
      } else {
        UnlockReader(h, k);
      }
      handles := handles - {h};
    }

    method UnlockWriter(h: Id, k: nat)
      requires Valid() && h in handles && handles[h].kind == Writer && k == LowerBound(tree, handles[h].off)
      modifies this`tree, this`pending
      ensures tree == ReleaseAt(old(tree), handles[h].off, handles[h].len) && pending == old(pending) + {h}
    {
      WriterInTree(View(), h);
      OwnEntry(View(), h);
      ReleaseAtSearch(tree, handles[h].off, handles[h].len);
      tree := tree[..k] + tree[k + 1..];
      pending := pending + {h};
    }

    /** A handle that is still in the tree is simply removed; otherwise its proxies are released one by one. */
    method UnlockReader(h: Id, k: nat)
      requires Valid() && h in handles && handles[h].kind == Reader && k == LowerBound(tree, handles[h].off)
      modifies this`tree, this`sleepers, this`detached
      ensures tree == ReleaseAt(old(tree), handles[h].off, handles[h].len)
      ensures sleepers == Awake(old(sleepers), ReleasedAt(old(tree), handles[h].off, handles[h].len))
      ensures detached == old(detached) - {h}
    {
      var rl := handles[h];
      ReleaseAtSearch(tree, rl.off, rl.len);
      if h !in detached {
        OwnEntry(View(), h);
        tree := tree[..k] + tree[k + 1..];
        sleepers := Awake(sleepers, {h});
      } else {
        TilesFromSearch(tree, 0, handles, now, h);
        ReleaseFrom(k, rl.len, h);
        detached := detached - {h};
      }
    }

    /** Shrinks a lock on the whole file, which is then the only entry of the tree. */
    method Reduce(h: Id, off: nat, len: nat)
      requires Valid() && Enabled(View(), OpReduce(h, off, len))
      modifies this
      ensures Valid() && View() == Step(old(View()), OpReduce(h, off, len))
      ensures |tree| == 1
    {
      StepInv(View(), OpReduce(h, off, len));
      ReduceInv(View(), h, off, len);
      WholeFileAlone(View(), h);
      assert |tree| == 1 && tree[0].id == h && tree[0].kind == Writer && tree[0].cnt == 1;
      tree := [tree[0].(off := off, len := len)];
      handles := handles[h := Grant(off, len, Writer)];
      pending := pending + {h};
    }

    /** Wakes everybody who sleeps on an entry whose owner has already left the critical section. */
    method Broadcast(ghost h: Id)
      requires Valid() && Enabled(View(), OpBroadcast(h))
      modifies this`sleepers, this`pending
      ensures Valid() && View() == Step(old(View()), OpBroadcast(h))
      ensures forall t :: t in sleepers ==> sleepers[t].entry != h
    {
      StepInv(View(), OpBroadcast(h));
      sleepers := Awake(sleepers, {h});
      pending := pending - {h};
    }
  }
}
