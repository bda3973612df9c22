/**
 The locks on the names of one directory. Whoever locks a name first takes the directory's name lock for reading;
 the list of name locks is guarded by the directory's mutex. Removing the directory takes the name lock for writing.
 */
module DirLockModel {

  type Tid = nat

  /** A lock on one name. `sharecnt` is 0 when one thread has it alone. Unless the name has been copied, it is stored
      in memory of thread `maker`, which made the lock. */
  datatype DirLock = DirLock(id: nat, name: string, sharecnt: nat, copied: bool, maker: Tid)

  /** A thread inside zfs_dirent_lock that has the name lock and wants the mutex, one that sleeps on a lock, one that
      has a lock, and one that is inside zfs_dirent_unlock: it has given up the name lock and has the mutex. */
  datatype Thread =
    | Entering(name: string, shared: bool)
    | Asleep(name: string, shared: bool, on: nat)
    | Holding(name: string, shared: bool, id: nat)
    | Unlocking(name: string, shared: bool, id: nat)

  datatype Option<T> = None | Some(value: T)

  datatype State = State(
    locks: seq<DirLock>, next: nat, threads: map<Tid, Thread>, writer: Option<Tid>, unlinked: bool)

  predicate Reads(th: Thread) {
    !th.Unlocking?
  }

  /** The mutex is taken only by a thread that is unlocking; every other use is a single step. */
  predicate MutexFree(s: State) {
    forall t :: t in s.threads ==> !s.threads[t].Unlocking?
  }

  /** `RenameOver` is a rename that replaces this directory: it removes the directory without its name lock, under
      the mutex and provided that nobody has a name in it locked. */
  datatype Action =
    | Enter(t: Tid, name: string, shared: bool)
    | Acquire(t: Tid)
    | StartUnlock(t: Tid)
    | FinishUnlock(t: Tid)
    | WriterEnter(t: Tid)
    | WriterUnlink(t: Tid)
    | WriterExit(t: Tid)
    | RenameOver

  predicate Enabled(s: State, a: Action) {
    match a
    case Enter(t, name, shared) => t !in s.threads && s.writer.None?
    case Acquire(t) => t in s.threads && s.threads[t].Entering? && MutexFree(s)
    case StartUnlock(t) => t in s.threads && s.threads[t].Holding? && MutexFree(s)
    case FinishUnlock(t) => t in s.threads && s.threads[t].Unlocking? && Find(s.locks, s.threads[t].id) < |s.locks|
    case WriterEnter(t) => s.writer.None? && forall u :: u in s.threads ==> !Reads(s.threads[u])
    case WriterUnlink(t) => s.writer == Some(t) && MutexFree(s)
    case WriterExit(t) => s.writer == Some(t)
    case RenameOver => MutexFree(s) && s.locks == []
  }

  /** The place of the lock on a name, or the length of the list. */
  function FindName(locks: seq<DirLock>, name: string): nat {
    if locks == [] || locks[0].name == name then 0 else 1 + FindName(locks[1..], name)
  }

  function Find(locks: seq<DirLock>, id: nat): nat {
    if locks == [] || locks[0].id == id then 0 else 1 + Find(locks[1..], id)
  }

  lemma {:induction false} FindNameFinds(locks: seq<DirLock>, name: string)
    ensures FindName(locks, name) <= |locks|
    ensures FindName(locks, name) < |locks| ==> locks[FindName(locks, name)].name == name
    ensures forall i :: 0 <= i < FindName(locks, name) ==> locks[i].name != name
  {
    if locks != [] {
      FindNameFinds(locks[1..], name);
    }
  }

  lemma {:induction false} FindFinds(locks: seq<DirLock>, id: nat)
    ensures Find(locks, id) <= |locks|
    ensures Find(locks, id) < |locks| ==> locks[Find(locks, id)].id == id
    ensures forall i :: 0 <= i < Find(locks, id) ==> locks[i].id != id
  {
    if locks != [] {
      FindFinds(locks[1..], id);
    }
  }

  /** One more sharer. The second one makes a copy of the name. */
  function Share(dl: DirLock): DirLock {
    dl.(sharecnt := dl.sharecnt + 1, copied := dl.copied || dl.sharecnt + 1 > 1)
  }

  function Acquired(s: State, t: Tid): State
    requires t in s.threads && s.threads[t].Entering?
  {
    var name, shared := s.threads[t].name, s.threads[t].shared;
    FindNameFinds(s.locks, name);
    var i := FindName(s.locks, name);
    if s.unlinked then s.(threads := s.threads - {t})
    else if i == |s.locks| then
      s.(locks := [DirLock(s.next, name, if shared then 1 else 0, false, t)] + s.locks, next := s.next + 1,
         threads := s.threads[t := Holding(name, shared, s.next)])
    else if shared && s.locks[i].sharecnt != 0 then
      s.(locks := s.locks[i := Share(s.locks[i])], threads := s.threads[t := Holding(name, true, s.locks[i].id)])
    else s.(threads := s.threads[t := Asleep(name, shared, s.locks[i].id)])
  }

  function Woken(th: Thread, id: nat): Thread {
    if th.Asleep? && th.on == id then Entering(th.name, th.shared) else th
  }

  function WakeAll(threads: map<Tid, Thread>, id: nat): map<Tid, Thread> {
    map t | t in threads :: Woken(threads[t], id)
  }

  function Released(s: State, t: Tid): State
    requires t in s.threads && s.threads[t].Unlocking? && Find(s.locks, s.threads[t].id) < |s.locks|
  {
    var id := s.threads[t].id;
    FindFinds(s.locks, id);
    var i := Find(s.locks, id);
    if s.locks[i].sharecnt > 1 then
      s.(locks := s.locks[i := s.locks[i].(sharecnt := s.locks[i].sharecnt - 1)], threads := s.threads - {t})
    else
      s.(locks := s.locks[..i] + s.locks[i + 1..], threads := WakeAll(s.threads - {t}, id))
  }

  function Apply(s: State, a: Action): State
    requires Enabled(s, a)
  {
    match a
    case Enter(t, name, shared) => s.(threads := s.threads[t := Entering(name, shared)])
    case Acquire(t) => Acquired(s, t)
    case StartUnlock(t) =>
      var th := s.threads[t];
      s.(threads := s.threads[t := Unlocking(th.name, th.shared, th.id)])
    case FinishUnlock(t) => Released(s, t)
    case WriterEnter(t) => s.(writer := Some(t))
    case WriterUnlink(t) => s.(unlinked := true)
    case WriterExit(t) => s.(writer := None)
    case RenameOver => s.(unlinked := true)
  }

  predicate IsRun(s: State, actions: seq<Action>)
    decreases |actions|
  {
    actions == [] || (Enabled(s, actions[0]) && IsRun(Apply(s, actions[0]), actions[1..]))
  }

  function After(s: State, actions: seq<Action>): State
    requires IsRun(s, actions)
    decreases |actions|
  {
    if actions == [] then s else After(Apply(s, actions[0]), actions[1..])
  }

  const INIT := State([], 0, map[], None, false)
}
