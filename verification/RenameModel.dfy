/**
 Concurrent renames of directories. Each rename write-locks its source, then read-locks the chain of directories
 from the target directory upwards, until it meets the root or the source's parent.
 */
module RenameModel {

  type Id = nat
  type Tid = nat

  /** Where a rename stands: waiting for the write lock, about to read-lock `at`, past the check with the climb ended
      at `top`, or refused because the target is the source or below it. */
  datatype Phase = Waiting | Climbing(at: Id) | Cleared(top: Id) | Refused

  /** `chain` lists the directories it has read-locked; unless it is waiting it also has the write lock of `src`. */
  datatype Rename = Rename(src: Id, dst: Id, from: Id, phase: Phase, chain: seq<Id>)

  /** `parent` has an entry for each directory except the root. */
  datatype State = State(root: Id, parent: map<Id, Id>, renames: map<Tid, Rename>)

  predicate IsDir(s: State, d: Id) {
    d == s.root || d in s.parent
  }

  /** What a rename does after it has looked at directory id `oid`. */
  function Look(oid: Id, src: Id, root: Id, from: Id): Phase {
    if oid == src then Refused
    else if oid == root || oid == from then Cleared(oid)
    else Climbing(oid)
  }

  predicate WriteLocked(s: State, d: Id) {
    exists t :: t in s.renames && !s.renames[t].phase.Waiting? && s.renames[t].src == d
  }

  predicate ReadLocked(s: State, d: Id) {
    exists t :: t in s.renames && d in s.renames[t].chain
  }

  predicate Childless(parent: map<Id, Id>, d: Id) {
    forall c :: c in parent ==> parent[c] != d
  }

  /** Nobody is renaming this directory: whoever removes or renames it needs the lock on its name. */
  predicate NotMoving(s: State, d: Id) {
    forall t :: t in s.renames ==> s.renames[t].src != d
  }

  predicate Unmentioned(r: Rename, d: Id) {
    r.src != d && r.dst != d && r.from != d && d !in r.chain && r.phase != Climbing(d)
  }

  datatype Option<T> = None | Some(value: T)

  datatype Action =
    | Begin(t: Tid, src: Id, dst: Id)
    | LockSource(t: Tid)
    | Climb(t: Tid)
    | Restart(t: Tid)
    | Commit(t: Tid, replaced: Option<Id>)
    | Abandon(t: Tid)
    | MakeDir(d: Id, p: Id)
    | RemoveDir(d: Id)

  predicate Removable(s: State, d: Id) {
    d in s.parent && Childless(s.parent, d) && NotMoving(s, d)
  }

  predicate Enabled(s: State, a: Action) {
    match a
    case Begin(t, src, dst) => t !in s.renames && src in s.parent && IsDir(s, dst) && NotMoving(s, src)
    case LockSource(t) =>
      && t in s.renames && s.renames[t].phase.Waiting?
      && !WriteLocked(s, s.renames[t].src) && !ReadLocked(s, s.renames[t].src)
    case Climb(t) =>
      && t in s.renames && s.renames[t].phase.Climbing?
      && s.renames[t].phase.at in s.parent && !WriteLocked(s, s.renames[t].phase.at)
    case Restart(t) =>
      && t in s.renames && s.renames[t].phase.Climbing?
      && WriteLocked(s, s.renames[t].phase.at) && s.renames[t].phase.at > s.renames[t].src
    case Commit(t, replaced) =>
      && t in s.renames && s.renames[t].phase.Cleared? && IsDir(s, s.renames[t].dst)
      && (replaced.Some? ==>
            && replaced.value in s.parent && s.parent[replaced.value] == s.renames[t].dst
            && Removable(s, replaced.value))
    case Abandon(t) =>
      && t in s.renames
      && match s.renames[t].phase {
           case Waiting => false
           case Climbing(at) => at !in s.parent
           case _ => true
         }
    case MakeDir(d, p) =>
      !IsDir(s, d) && IsDir(s, p) && forall t :: t in s.renames ==> Unmentioned(s.renames[t], d)
    case RemoveDir(d) => Removable(s, d)
  }

  function Update(s: State, t: Tid, r: Rename): State {
    s.(renames := s.renames[t := r])
  }

  function Apply(s: State, a: Action): State
    requires Enabled(s, a)
  {
    match a
    case Begin(t, src, dst) => Update(s, t, Rename(src, dst, s.parent[src], Waiting, []))
    case LockSource(t) =>
      var r := s.renames[t];
      Update(s, t, r.(phase := Look(r.dst, r.src, s.root, r.from)))
    case Climb(t) =>
      var r := s.renames[t];
      Update(s, t, r.(chain := r.chain + [r.phase.at],
                      phase := Look(s.parent[r.phase.at], r.src, s.root, r.from)))
    case Restart(t) =>
      Update(s, t, s.renames[t].(phase := Waiting, chain := []))
    case Commit(t, replaced) =>
      var r := s.renames[t];
      var parent := if replaced.Some? then s.parent - {replaced.value} else s.parent;
      State(s.root, parent[r.src := r.dst], s.renames - {t})
    case Abandon(t) => s.(renames := s.renames - {t})
    case MakeDir(d, p) => s.(parent := s.parent[d := p])
    case RemoveDir(d) => s.(parent := s.parent - {d})
  }

  predicate IsRun(s: State, actions: seq<Action>)
    decreases |actions|
  {
    actions == [] || (Enabled(s, actions[0]) && IsRun(Apply(s, actions[0]), actions[1..]))
  }

  function After(s: State, actions: seq<Action>): State
    requires IsRun(s, actions)
    decreases |actions|
  {
    if actions == [] then s else After(Apply(s, actions[0]), actions[1..])
  }

  // ----- trees -----

  /** `p` climbs from its first directory to the root. */
  predicate IsPath(parent: map<Id, Id>, root: Id, p: seq<Id>) {
    p != [] &&
    if |p| == 1 then p[0] == root
    else p[0] != root && p[0] in parent && parent[p[0]] == p[1] && IsPath(parent, root, p[1..])
  }

  ghost predicate HasPath(parent: map<Id, Id>, root: Id, d: Id) {
    exists p :: IsPath(parent, root, p) && p[0] == d
  }

  /** The directories form a tree: climbing from any of them ends at the root. */
  ghost predicate IsTree(parent: map<Id, Id>, root: Id) {
    root !in parent && forall d :: d in parent ==> HasPath(parent, root, d)
  }

  /** Is `a` directory `d` itself or above it? */
  ghost predicate AtOrAbove(parent: map<Id, Id>, root: Id, a: Id, d: Id) {
    exists p :: IsPath(parent, root, p) && p[0] == d && a in p
  }
}
