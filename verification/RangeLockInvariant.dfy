/**
 The invariant of the range lock, and what it means for the locks that callers hold.
 */
module RangeLockInvariant {
  import opened RangeLockModel

  /** The readers whose range touches [lo, hi). */
  ghost function Cover(grants: map<Id, Grant>, lo: nat, hi: nat): set<Id> {
    set h | h in grants && grants[h].kind == Reader && grants[h].off < hi && lo < grants[h].End()
  }

  /** No reader's range ends inside [lo, hi): each one contains it or stays away from it. */
  ghost predicate Uncut(grants: map<Id, Grant>, lo: nat, hi: nat) {
    forall h :: h in Cover(grants, lo, hi) ==> grants[h].off <= lo && hi <= grants[h].End()
  }

  /** One entry tells the truth about the grants. */
  ghost predicate Good(e: Entry, grants: map<Id, Grant>, now: nat) {
    && InBounds(e.off, e.len)
    && e.id.stamp < now
    && Uncut(grants, e.off, e.End())
    && (e.kind == Reader ==> e.cnt == |Cover(grants, e.off, e.End())| && 0 < e.cnt)
    && (e.kind == Writer ==> e.id.Handle? && Cover(grants, e.off, e.End()) == {})
    && (e.id.Handle? ==> e.cnt == 1 && e.id in grants && grants[e.id] == Grant(e.off, e.len, e.kind))
    && (e.id.Proxy? ==> e.id.at == e.off)
    && (e.kind == Reader && e.readWanted ==> e.writeWanted)
  }

  ghost predicate AllGood(tree: seq<Entry>, grants: map<Id, Grant>, now: nat) {
    tree == [] || (Good(tree[0], grants, now) && AllGood(tree[1..], grants, now))
  }

  ghost predicate Covers(tree: seq<Entry>, b: nat) {
    tree != [] && (tree[0].off <= b < tree[0].End() || Covers(tree[1..], b))
  }

  /** Every byte at or after `from` that some reader holds lies in an entry. */
  ghost predicate Covered(tree: seq<Entry>, grants: map<Id, Grant>, from: nat) {
    forall h, b: nat {:trigger grants[h], Covers(tree, b)} ::
      h in grants && grants[h].kind == Reader && from <= b && grants[h].off <= b < grants[h].End() ==> Covers(tree, b)
  }

  ghost predicate HasId(tree: seq<Entry>, id: Id) {
    tree != [] && (tree[0].id == id || HasId(tree[1..], id))
  }

  ghost predicate TreeOk(tree: seq<Entry>, grants: map<Id, Grant>, now: nat) {
    SortedFrom(tree, 0) && AllGood(tree, grants, now) && Covered(tree, grants, 0)
  }

  ghost predicate GrantsOk(grants: map<Id, Grant>, now: nat) {
    forall h :: h in grants ==> h.Handle? && h.stamp < now && InBounds(grants[h].off, grants[h].len)
  }

  /** A handle is detached exactly when its own entry is not in the tree, which happens to readers only. */
  ghost predicate HandleOk(tree: seq<Entry>, grants: map<Id, Grant>, detached: set<Id>, h: Id) {
    && (h in grants ==> (h in detached <==> !HasId(tree, h)))
    && (h in detached ==> h in grants && grants[h].kind == Reader)
  }

  ghost predicate HandlesOk(tree: seq<Entry>, grants: map<Id, Grant>, detached: set<Id>) {
    forall h :: HandleOk(tree, grants, detached, h)
  }

  ghost predicate Flagged(e: Entry, want: Want) {
    if want == WantWrite then e.writeWanted else e.readWanted
  }

  /** The entry is the one that the thread sleeps on, it is flagged, and it is in the way of what the thread wants. */
  ghost predicate Waits(e: Entry, w: Sleep) {
    e.id == w.entry && Flagged(e, w.want) && 0 < w.len && e.Overlaps(w.off, w.off + w.len)
  }

  ghost predicate WaitsOn(tree: seq<Entry>, w: Sleep) {
    tree != [] && (Waits(tree[0], w) || WaitsOn(tree[1..], w))
  }

  /** No lost wakeup: the entry a thread waits on is still there, flagged and in its way, or is about to be broadcast. */
  ghost predicate SleepersOk(tree: seq<Entry>, sleepers: map<Tid, Sleep>, pending: set<Id>) {
    forall t :: t in sleepers ==> sleepers[t].entry in pending || WaitsOn(tree, sleepers[t])
  }

  ghost predicate PendingOk(pending: set<Id>, now: nat) {
    forall h :: h in pending ==> h.Handle? && h.stamp < now
  }

  ghost predicate Inv(s: State) {
    && TreeOk(s.tree, s.grants, s.now)
    && GrantsOk(s.grants, s.now)
    && HandlesOk(s.tree, s.grants, s.detached)
    && SleepersOk(s.tree, s.sleepers, s.pending)
    && PendingOk(s.pending, s.now)
  }

  // ----- counting readers -----

  lemma CoverOfPart(grants: map<Id, Grant>, lo: nat, hi: nat, lo': nat, hi': nat)
    requires Uncut(grants, lo, hi)
    requires lo <= lo' < hi' <= hi
    ensures Cover(grants, lo', hi') == Cover(grants, lo, hi)
    ensures Uncut(grants, lo', hi')
  {
  }

  lemma CoverWith(grants: map<Id, Grant>, h: Id, g: Grant, lo: nat, hi: nat)
    requires h !in grants
    ensures Cover(grants[h := g], lo, hi) ==
            Cover(grants, lo, hi) + if g.kind == Reader && g.off < hi && lo < g.End() then {h} else {}
  {
  }

  lemma CoverWithout(grants: map<Id, Grant>, h: Id, lo: nat, hi: nat)
    ensures Cover(grants - {h}, lo, hi) == Cover(grants, lo, hi) - {h}
  {
  }
}
