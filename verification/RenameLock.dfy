/**
 Why the parent locks keep the directories a tree under every interleaving, why they cannot deadlock, and what the
 climb decides when it runs alone.
 */
module RenameLock {
  import opened RenameModel
  import opened RenameTree

  /** Each directory of the chain is the parent of the one before; `top` is the parent of the last. */
  predicate Linked(parent: map<Id, Id>, chain: seq<Id>, top: Id) {
    chain == [] ||
    (&& chain[0] in parent && parent[chain[0]] == (if |chain| == 1 then top else chain[1])
     && Linked(parent, chain[1..], top))
  }

  /** The chain climbs from the target directory to `top`. */
  predicate ClimbsTo(parent: map<Id, Id>, r: Rename, top: Id) {
    Linked(parent, r.chain, top) && r.dst == if r.chain == [] then top else r.chain[0]
  }

  /** While the target directory exists, the locked chain is what the directories look like now. */
  predicate RenameOk(root: Id, parent: map<Id, Id>, r: Rename) {
    && r.src in parent && parent[r.src] == r.from && r.src !in r.chain
    && match r.phase {
         case Waiting => r.chain == []
         case Climbing(at) => at != r.src && at != root && (r.dst == root || r.dst in parent ==> ClimbsTo(parent, r, at))
         case Cleared(top) =>
           (top == root || top == r.from) && (r.dst == root || r.dst in parent ==> ClimbsTo(parent, r, top))
         case Refused => true
       }
  }

  /** Two renames have different sources, and neither has read-locked what the other has write-locked. */
  predicate PairOk(r: Rename, q: Rename) {
    r.src != q.src && (!r.phase.Waiting? ==> r.src !in q.chain)
  }

  ghost predicate Inv(s: State) {
    && IsTree(s.parent, s.root)
    && (forall t :: t in s.renames ==> RenameOk(s.root, s.parent, s.renames[t]))
    && (forall t, u :: t in s.renames && u in s.renames && t != u ==> PairOk(s.renames[t], s.renames[u]))
  }

  lemma {:induction false} LinkedElsewhere(parent: map<Id, Id>, parent': map<Id, Id>, chain: seq<Id>, top: Id, d: Id)
    requires Linked(parent, chain, top) && d !in chain
    requires forall x :: x in parent && x != d ==> x in parent' && parent'[x] == parent[x]
    ensures Linked(parent', chain, top)
  {
    if chain != [] {
      LinkedElsewhere(parent, parent', chain[1..], top, d);
    }
  }

  lemma {:induction false} LinkedExtend(parent: map<Id, Id>, chain: seq<Id>, at: Id)
    requires Linked(parent, chain, at) && at in parent
    ensures Linked(parent, chain + [at], parent[at])
  {
    if chain == [] {
      assert [at][1..] == [];
    } else {
      LinkedExtend(parent, chain[1..], at);
      assert (chain + [at])[1..] == chain[1..] + [at];
    }
  }

  /** The chain and a path from its top make a path. */
  lemma {:induction false} ChainPath(parent: map<Id, Id>, root: Id, chain: seq<Id>, top: Id, p: seq<Id>)
    requires Linked(parent, chain, top) && IsPath(parent, root, p) && p[0] == top && root !in parent
    ensures IsPath(parent, root, chain + p)
  {
    if chain == [] {
      assert chain + p == p;
    } else {
      ChainPath(parent, root, chain[1..], top, p);
      assert (chain + p)[1..] == chain[1..] + p;
      assert |chain| > 1 ==> (chain + p)[1] == chain[1];
      assert |chain| == 1 ==> (chain + p)[1] == p[0];
    }
  }

  /** A directory without children can only be the first of a chain. */
  lemma {:induction false} ChildlessInChain(parent: map<Id, Id>, chain: seq<Id>, top: Id, d: Id)
    requires Linked(parent, chain, top) && Childless(parent, d) && (chain != [] ==> chain[0] != d)
    ensures d !in chain
  {
    if |chain| > 1 {
      ChildlessInChain(parent, chain[1..], top, d);
      assert chain == [chain[0]] + chain[1..];
    }
  }

  // ----- preservation -----

  /** A cleared rename's target directory has a path that avoids the source. */
  lemma ClearedPath(root: Id, parent: map<Id, Id>, r: Rename) returns (up: seq<Id>)
    requires IsTree(parent, root) && RenameOk(root, parent, r) && r.phase.Cleared? && (r.dst == root || r.dst in parent)
    ensures IsPath(parent, root, up) && up[0] == r.dst && r.src !in up
  {
    var top := r.phase.top;
    PathOf(parent, root, r.from) by {
      PathOf(parent, root, r.src);
      var q :| IsPath(parent, root, q) && q[0] == r.src;
      PathSuffix(parent, root, q, 1);
      assert q[1..] != [] && q[1] == r.from;
    }
    PathOf(parent, root, top);
    var p :| IsPath(parent, root, p) && p[0] == top;
    if top == root {
      PathUnique(parent, root, p, [root]);
    } else {
      NotAboveItself(parent, root, r.src, p);
    }
    ChainPath(parent, root, r.chain, top, p);
    up := r.chain + p;
  }

  /** What a rename knows survives the removal of a childless directory that it is not moving. */
  lemma RenameOkAfterRemove(root: Id, parent: map<Id, Id>, r: Rename, d: Id)
    requires RenameOk(root, parent, r) && d != r.src && d != root && Childless(parent, d)
    ensures RenameOk(root, parent - {d}, r)
  {
    if r.phase.Climbing? || r.phase.Cleared? {
      var top := if r.phase.Climbing? then r.phase.at else r.phase.top;
      if r.dst == root || r.dst in parent - {d} {
        ChildlessInChain(parent, r.chain, top, d);
        LinkedElsewhere(parent, parent - {d}, r.chain, top, d);
      }
    }
  }

  /** It survives giving some directory that it has neither locked nor is moving a parent. */
  lemma RenameOkAfterSet(root: Id, parent: map<Id, Id>, r: Rename, d: Id, p: Id)
    requires RenameOk(root, parent, r) && d != r.src && d !in r.chain && (d in parent || d != r.dst)
    ensures RenameOk(root, parent[d := p], r)
  {
    if r.phase.Climbing? || r.phase.Cleared? {
      var top := if r.phase.Climbing? then r.phase.at else r.phase.top;
      if r.dst == root || r.dst in parent {
        LinkedElsewhere(parent, parent[d := p], r.chain, top, d);
      }
    }
  }

  lemma RemoveInv(s: State, d: Id)
    requires Inv(s) && Removable(s, d)
    ensures Inv(s.(parent := s.parent - {d}))
  {
    TreeAfterRemove(s.parent, s.root, d);
    forall t | t in s.renames ensures RenameOk(s.root, s.parent - {d}, s.renames[t]) {
      RenameOkAfterRemove(s.root, s.parent, s.renames[t], d);
    }
  }

  lemma MakeInv(s: State, d: Id, p: Id)
    requires Inv(s) && Enabled(s, MakeDir(d, p))
    ensures Inv(Apply(s, MakeDir(d, p)))
  {
    TreeAfterAdd(s.parent, s.root, d, p);
    forall t | t in s.renames ensures RenameOk(s.root, s.parent[d := p], s.renames[t]) {
      RenameOkAfterSet(s.root, s.parent, s.renames[t], d, p);
    }
  }

  lemma LockSourceInv(s: State, t: Tid)
    requires Inv(s) && Enabled(s, LockSource(t))
    ensures Inv(Apply(s, LockSource(t)))
  {
    var s', r := Apply(s, LockSource(t)), s.renames[t];
    assert ClimbsTo(s.parent, r, r.dst);
    assert RenameOk(s.root, s.parent, s'.renames[t]);
    forall u | u in s.renames && u != t ensures PairOk(s'.renames[t], s.renames[u]) && PairOk(s.renames[u], s'.renames[t]) {
      assert r.src !in s.renames[u].chain;
      assert PairOk(s.renames[u], r);
    }
  }

  lemma ClimbInv(s: State, t: Tid)
    requires Inv(s) && Enabled(s, Climb(t))
    ensures Inv(Apply(s, Climb(t)))
  {
    var s', r := Apply(s, Climb(t)), s.renames[t];
    var at := r.phase.at;
    if r.dst == s.root || r.dst in s.parent {
      LinkedExtend(s.parent, r.chain, at);
    }
    assert RenameOk(s.root, s.parent, s'.renames[t]);
    forall u | u in s.renames && u != t ensures PairOk(s'.renames[t], s.renames[u]) && PairOk(s.renames[u], s'.renames[t]) {
      assert PairOk(s.renames[u], r) && PairOk(r, s.renames[u]);
    }
  }

  /** The move itself. */
  lemma MoveInv(s: State, t: Tid)
    requires Inv(s) && t in s.renames && s.renames[t].phase.Cleared? && IsDir(s, s.renames[t].dst)
    ensures var r := s.renames[t]; Inv(State(s.root, s.parent[r.src := r.dst], s.renames - {t}))
  {
    var r := s.renames[t];
    var up := ClearedPath(s.root, s.parent, r);
    TreeAfterMove(s.parent, s.root, r.src, up);
    forall u | u in s.renames && u != t ensures RenameOk(s.root, s.parent[r.src := r.dst], s.renames[u]) {
      assert PairOk(r, s.renames[u]);
      RenameOkAfterSet(s.root, s.parent, s.renames[u], r.src, r.dst);
    }
  }

  lemma CommitInv(s: State, t: Tid, replaced: Option<Id>)
    requires Inv(s) && Enabled(s, Commit(t, replaced))
    ensures Inv(Apply(s, Commit(t, replaced)))
  {
    var r := s.renames[t];
    if replaced.Some? {
      var d := replaced.value;
      RemoveInv(s, d);
      assert d != r.dst;
      MoveInv(s.(parent := s.parent - {d}), t);
    } else {
      MoveInv(s, t);
    }
  }

  /** Every step of every rename, and every mkdir and rmdir between the steps, keeps the invariant. */
  lemma StepInv(s: State, a: Action)
    requires Inv(s) && Enabled(s, a)
    ensures Inv(Apply(s, a))
  {
    match a
    case LockSource(t) => LockSourceInv(s, t);
    case Climb(t) => ClimbInv(s, t);
    case Commit(t, replaced) => CommitInv(s, t, replaced);
    case MakeDir(d, p) => MakeInv(s, d, p);
    case RemoveDir(d) => RemoveInv(s, d);
    case _ =>
  }

  lemma {:induction false} RunInv(s: State, actions: seq<Action>)
    requires Inv(s) && IsRun(s, actions)
    ensures Inv(After(s, actions)) && After(s, actions).root == s.root
    decreases |actions|
  {
    if actions != [] {
      StepInv(s, actions[0]);
      RunInv(Apply(s, actions[0]), actions[1..]);
    }
  }

  // ----- waiting -----

  /** Rename `t` waits for `u` to give up the directory it wants to read-lock; it would rather restart if that
      directory's id were above its source's. */
  predicate WaitsFor(s: State, t: Tid, u: Tid) {
    && t in s.renames && u in s.renames && s.renames[t].phase.Climbing? && !s.renames[u].phase.Waiting?
    && s.renames[u].src == s.renames[t].phase.at && s.renames[t].phase.at <= s.renames[t].src
  }

  lemma {:induction false} Smallest(renames: map<Tid, Rename>, ts: set<Tid>) returns (t: Tid)
    requires ts != {} && ts <= renames.Keys
    ensures t in ts && forall u :: u in ts ==> renames[t].src <= renames[u].src
    decreases ts
  {
    t :| t in ts;
    if ts != {t} {
      var u := Smallest(renames, ts - {t});
      if renames[u].src < renames[t].src {
        t := u;
      }
    }
  }

  /** Waiting goes from larger to smaller sources, so it cannot go in a circle; and a rename that waits for its write
      lock holds nothing that another could wait for. */
  lemma WaitsDescend(s: State, t: Tid, u: Tid)
    requires Inv(s) && WaitsFor(s, t, u)
    ensures s.renames[u].src < s.renames[t].src
  {
    assert RenameOk(s.root, s.parent, s.renames[t]);
  }

  /** Rename `t` can take its next lock, drop its locks and start over, or finish. */
  predicate CanGoOn(s: State, t: Tid) {
    || Enabled(s, LockSource(t)) || Enabled(s, Climb(t)) || Enabled(s, Restart(t))
    || Enabled(s, Commit(t, None)) || Enabled(s, Abandon(t))
  }

  predicate NobodyHolds(s: State) {
    forall t :: t in s.renames ==> s.renames[t].phase.Waiting?
  }

  lemma WaiterGoesOn(s: State, t: Tid)
    requires Inv(s) && NobodyHolds(s) && t in s.renames
    ensures Enabled(s, LockSource(t))
  {
    forall u | u in s.renames ensures s.renames[u].chain == [] {
      assert RenameOk(s.root, s.parent, s.renames[u]);
    }
  }

  /** The holder with the smallest source never has to wait. */
  lemma HolderGoesOn(s: State, t: Tid)
    requires Inv(s) && t in s.renames && !s.renames[t].phase.Waiting?
    requires forall u :: u in s.renames && !s.renames[u].phase.Waiting? ==> s.renames[t].src <= s.renames[u].src
    ensures CanGoOn(s, t)
  {
    var r := s.renames[t];
    assert RenameOk(s.root, s.parent, r);
    if r.phase.Climbing? && WriteLocked(s, r.phase.at) {
      var u :| u in s.renames && !s.renames[u].phase.Waiting? && s.renames[u].src == r.phase.at;
      assert Enabled(s, Restart(t));
    }
  }

  /** As long as there are renames, one of them can go on. */
  lemma NoDeadlock(s: State)
    requires Inv(s) && s.renames != map[]
    ensures exists t :: t in s.renames && CanGoOn(s, t)
  {
    var holders := set t | t in s.renames && !s.renames[t].phase.Waiting?;
    var t :| t in s.renames;
    if holders == {} {
      forall u | u in s.renames ensures s.renames[u].phase.Waiting? {
        assert u !in holders;
      }
      WaiterGoesOn(s, t);
    } else {
      t := Smallest(s.renames, holders);
      HolderGoesOn(s, t);
    }
    assert CanGoOn(s, t);
  }

  /** Under every interleaving of renames, mkdirs and rmdirs the directories stay a tree, and no set of renames is
      stuck. */
  lemma {:induction false} AlwaysTree(root: Id, parent: map<Id, Id>, actions: seq<Action>)
    requires IsTree(parent, root) && IsRun(State(root, parent, map[]), actions)
    ensures var s := After(State(root, parent, map[]), actions);
            IsTree(s.parent, root) && (s.renames != map[] ==> exists t :: t in s.renames && CanGoOn(s, t))
  {
    RunInv(State(root, parent, map[]), actions);
    var s := After(State(root, parent, map[]), actions);
    if s.renames != map[] {
      NoDeadlock(s);
    }
  }

  // ----- the climb on its own -----

  /** zfs_rename_lock when no other rename interferes: it refuses exactly when the source is the target directory or
      above it. `held` lists the directories it has read-locked. */
  method RenameLock(root: Id, parent: map<Id, Id>, src: Id, dst: Id, from: Id) returns (refused: bool, held: seq<Id>)
    requires IsTree(parent, root) && src in parent && from == parent[src] && (dst == root || dst in parent)
    ensures refused <==> AtOrAbove(parent, root, src, dst)
    ensures exists top :: ClimbsTo(parent, Rename(src, dst, from, Waiting, held), top) &&
                          Look(top, src, root, from) == if refused then Refused else Cleared(top)
  {
    PathOf(parent, root, dst);
    ghost var path :| IsPath(parent, root, path) && path[0] == dst;
    ghost var i := 0;
    var oid := dst;
    held := [];
    var phase := Look(dst, src, root, from);
    while phase.Climbing?
      invariant i < |path| && path[i] == oid && held == path[..i]
      invariant src !in held && phase == Look(oid, src, root, from)
      invariant ClimbsTo(parent, Rename(src, dst, from, Waiting, held), oid)
      decreases |path| - i
    {
      PathSuffix(parent, root, path, i);
      assert path[i..][0] == oid && path[i..][1..] == path[i + 1..];
      LinkedExtend(parent, held, oid);
      held := held + [phase.at];
      oid := parent[phase.at];
      i := i + 1;
      phase := Look(oid, src, root, from);
    }
    refused := phase.Refused?;
    if refused {
      assert src in path;
    } else {
      PathSuffix(parent, root, path, i);
      assert path == path[..i] + path[i..];
      if oid == root {
        PathUnique(parent, root, path[i..], [root]);
      } else {
        NotAboveItself(parent, root, src, path[i..]);
      }
      forall p | IsPath(parent, root, p) && p[0] == dst ensures p == path {
        PathUnique(parent, root, p, path);
      }
    }
  }
}
