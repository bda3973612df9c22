/**
 The list of name locks as zfs_dirent_lock and zfs_dirent_unlock update it, proved to take exactly the steps of the
 model.
 */
module DirLockList {
  import opened DirLockModel
  import opened DirLocks

  datatype Outcome = Gone | Got(id: nat) | Sleep(on: nat)

  lemma {:induction false} FindNameFrom(locks: seq<DirLock>, i: nat, name: string)
    requires i < |locks|
    ensures FindName(locks[i..], name) == if locks[i].name == name then 0 else 1 + FindName(locks[i + 1..], name)
  {
    assert locks[i..][1..] == locks[i + 1..];
  }

  lemma {:induction false} FindFrom(locks: seq<DirLock>, i: nat, id: nat)
    requires i < |locks|
    ensures Find(locks[i..], id) == if locks[i].id == id then 0 else 1 + Find(locks[i + 1..], id)
  {
    assert locks[i..][1..] == locks[i + 1..];
  }

  class Directory {
    var locks: seq<DirLock>
    var next: nat
    var unlinked: bool
    ghost var threads: map<Tid, Thread>
    ghost var writer: Option<Tid>

    ghost function View(): State
      reads this
    {
      State(locks, next, threads, writer, unlinked)
    }

    constructor ()
      ensures View() == INIT
    {
      locks, next, unlinked, threads, writer := [], 0, false, map[], None;
    }

    method Lookup(name: string) returns (i: nat)
      ensures i == FindName(locks, name)
    {
      i := 0;
      assert locks[0..] == locks;
      while i < |locks| && locks[i].name != name
        invariant i <= |locks| && FindName(locks, name) == i + FindName(locks[i..], name)
      {
        FindNameFrom(locks, i, name);
        i := i + 1;
      }
      if i < |locks| {
        FindNameFrom(locks, i, name);
      }
    }

    method Locate(id: nat) returns (i: nat)
      requires Find(locks, id) < |locks|
      ensures i == Find(locks, id)
    {
      i := 0;
      assert locks[0..] == locks;
      while locks[i].id != id
        invariant i < |locks| && Find(locks, id) == i + Find(locks[i..], id) < |locks|
        decreases |locks| - i
      {
        FindFrom(locks, i, id);
        i := i + 1;
      }
      FindFrom(locks, i, id);
    }

    /** One turn of the loop in zfs_dirent_lock, under the mutex. */
    method Acquire(t: Tid, name: string, shared: bool) returns (outcome: Outcome)
      requires Inv(View()) && Enabled(View(), DirLockModel.Acquire(t)) && threads[t] == Entering(name, shared)
      modifies this
      ensures View() == Apply(old(View()), DirLockModel.Acquire(t)) && Inv(View())
      ensures match outcome
              case Gone => t !in threads
              case Got(id) => t in threads && threads[t] == Holding(name, shared, id)
              case Sleep(on) => t in threads && threads[t] == Asleep(name, shared, on)
    {
      StepInv(View(), DirLockModel.Acquire(t));
      if unlinked {
        threads := threads - {t};
        return Gone;
      }
      var i := Lookup(name);
      FindNameFinds(locks, name);
      if i == |locks| {
        outcome := Got(next);
        locks, next := [DirLock(next, name, 0, false, t)] + locks, next + 1;
        if shared {
          locks := locks[0 := Share(locks[0])];
        }
        threads := threads[t := Holding(name, shared, next - 1)];
      } else if shared && locks[i].sharecnt != 0 {
        outcome := Got(locks[i].id);
        locks := locks[i := Share(locks[i])];
        threads := threads[t := Holding(name, shared, locks[i].id)];
      } else {
        outcome := Sleep(locks[i].id);
        threads := threads[t := Asleep(name, shared, locks[i].id)];
      }
    }

    /** The rest of zfs_dirent_unlock, after it has given up the name lock. The search cannot run off the list. */
    method FinishUnlock(t: Tid, id: nat)
      requires Inv(View()) && t in threads && threads[t].Unlocking? && threads[t].id == id
      modifies this
      ensures old(Enabled(View(), DirLockModel.FinishUnlock(t)))
      ensures View() == Apply(old(View()), DirLockModel.FinishUnlock(t)) && Inv(View())
    {
      UnlockFinds(View(), t);
      StepInv(View(), DirLockModel.FinishUnlock(t));
      var i := Locate(id);
      if locks[i].sharecnt > 1 {
        locks := locks[i := locks[i].(sharecnt := locks[i].sharecnt - 1)];
        threads := threads - {t};
      } else {
        locks := locks[..i] + locks[i + 1..];
        threads := WakeAll(threads - {t}, id);
      }
    }
  }
}
