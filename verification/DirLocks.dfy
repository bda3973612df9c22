/**
 What every interleaving of lockers, unlockers and a directory remover keeps true of a directory's name locks.
 */
module DirLocks {
  import opened DirLockModel

  predicate Holds(th: Thread, id: nat) {
    (th.Holding? || th.Unlocking?) && th.id == id
  }

  function Holders(threads: map<Tid, Thread>, id: nat): set<Tid> {
    set t | t in threads && Holds(threads[t], id)
  }

  /** A lock has one holder that does not share, or `sharecnt` holders that do; its name is in memory that lasts. */
  predicate LockOk(dl: DirLock, threads: map<Tid, Thread>) {
    var holders := Holders(threads, dl.id);
    && |holders| == (if dl.sharecnt == 0 then 1 else dl.sharecnt)
    && (forall t :: t in holders ==> threads[t].shared == (dl.sharecnt != 0))
    && (!dl.copied ==> dl.maker in holders)
    && (dl.sharecnt > 1 ==> dl.copied)
  }

  predicate LocksOk(locks: seq<DirLock>, next: nat, threads: map<Tid, Thread>) {
    locks == [] || (locks[0].id < next && LockOk(locks[0], threads) && LocksOk(locks[1..], next, threads))
  }

  predicate Fresh(locks: seq<DirLock>, id: nat, name: string) {
    locks == [] || (locks[0].id != id && locks[0].name != name && Fresh(locks[1..], id, name))
  }

  predicate OneLockPerName(locks: seq<DirLock>) {
    locks == [] || (Fresh(locks[1..], locks[0].id, locks[0].name) && OneLockPerName(locks[1..]))
  }

  predicate Has(locks: seq<DirLock>, id: nat, name: string) {
    locks != [] && ((locks[0].id == id && locks[0].name == name) || Has(locks[1..], id, name))
  }

  /** The lock that a thread has or sleeps on is in the list and is for the thread's name. */
  predicate ThreadOk(th: Thread, locks: seq<DirLock>) {
    match th
    case Entering(_, _) => true
    case Asleep(name, _, on) => Has(locks, on, name)
    case Holding(name, _, id) => Has(locks, id, name)
    case Unlocking(name, _, id) => Has(locks, id, name)
  }

  predicate ThreadsOk(threads: map<Tid, Thread>, locks: seq<DirLock>) {
    forall t :: t in threads ==> ThreadOk(threads[t], locks)
  }

  predicate OneUnlocker(threads: map<Tid, Thread>) {
    forall t, u :: t in threads && u in threads && threads[t].Unlocking? && threads[u].Unlocking? ==> t == u
  }

  predicate WriterAlone(writer: Option<Tid>, threads: map<Tid, Thread>) {
    writer.Some? ==> forall t :: t in threads ==> !Reads(threads[t])
  }

  predicate Inv(s: State) {
    && OneLockPerName(s.locks) && LocksOk(s.locks, s.next, s.threads) && ThreadsOk(s.threads, s.locks)
    && OneUnlocker(s.threads) && WriterAlone(s.writer, s.threads)
    && (s.unlinked ==> s.locks == [])
  }

  // ----- what a change of threads does to the locks -----

  predicate SameHolders(threads: map<Tid, Thread>, threads': map<Tid, Thread>, id: nat) {
    && Holders(threads, id) == Holders(threads', id)
    && forall t :: t in Holders(threads, id) ==> threads'[t].shared == threads[t].shared
  }

  lemma {:induction false} LocksSame(locks: seq<DirLock>, next: nat, threads: map<Tid, Thread>, threads': map<Tid,
                                     Thread>)
    requires LocksOk(locks, next, threads) && forall id :: SameHolders(threads, threads', id)
    ensures LocksOk(locks, next, threads')
  {
    if locks != [] {
      assert SameHolders(threads, threads', locks[0].id);
      LocksSame(locks[1..], next, threads, threads');
    }
  }

  /** Locks other than `id` do not mind a change in the holders of `id`. */
  lemma {:induction false} LocksElsewhere(locks: seq<DirLock>, next: nat, next': nat, threads: map<Tid, Thread>,
                                          threads': map<Tid, Thread>, id: nat, name: string)
    requires LocksOk(locks, next, threads) && next <= next' && Fresh(locks, id, name)
    requires forall x :: x != id ==> SameHolders(threads, threads', x)
    ensures LocksOk(locks, next', threads')
  {
    if locks != [] {
      assert SameHolders(threads, threads', locks[0].id);
      LocksElsewhere(locks[1..], next, next', threads, threads', id, name);
    }
  }

  lemma {:induction false} NextIsFresh(locks: seq<DirLock>, next: nat, threads: map<Tid, Thread>, name: string)
    requires LocksOk(locks, next, threads) && FindName(locks, name) == |locks|
    ensures Fresh(locks, next, name)
  {
    if locks != [] {
      NextIsFresh(locks[1..], next, threads, name);
    }
  }

  lemma {:induction false} OldId(locks: seq<DirLock>, next: nat, threads: map<Tid, Thread>, id: nat, name: string)
    requires LocksOk(locks, next, threads) && Has(locks, id, name)
    ensures id < next
  {
    if !(locks[0].id == id && locks[0].name == name) {
      OldId(locks[1..], next, threads, id, name);
    }
  }

  // ----- the steps -----

  lemma EnterInv(s: State, t: Tid, name: string, shared: bool)
    requires Inv(s) && Enabled(s, Enter(t, name, shared))
    ensures Inv(Apply(s, Enter(t, name, shared)))
  {
    var threads' := s.threads[t := Entering(name, shared)];
    forall id ensures SameHolders(s.threads, threads', id) {
    }
    LocksSame(s.locks, s.next, s.threads, threads');
  }

  lemma StartUnlockInv(s: State, t: Tid)
    requires Inv(s) && Enabled(s, StartUnlock(t))
    ensures Inv(Apply(s, StartUnlock(t)))
  {
    var threads' := Apply(s, StartUnlock(t)).threads;
    forall id ensures SameHolders(s.threads, threads', id) {
    }
    LocksSame(s.locks, s.next, s.threads, threads');
  }

  /** The first lock on a name. */
  lemma CreateInv(s: State, t: Tid)
    requires Inv(s) && Enabled(s, Acquire(t)) && !s.unlinked && FindName(s.locks, s.threads[t].name) == |s.locks|
    ensures Inv(Apply(s, Acquire(t)))
  {
    var s', name := Apply(s, Acquire(t)), s.threads[t].name;
    forall u | u in s.threads ensures !Holds(s.threads[u], s.next) {
      assert ThreadOk(s.threads[u], s.locks);
      if Holds(s.threads[u], s.next) {
        OldId(s.locks, s.next, s.threads, s.next, s.threads[u].name);
      }
    }
    assert Holders(s'.threads, s.next) == {t};
    forall id | id != s.next ensures SameHolders(s.threads, s'.threads, id) {
    }
    NextIsFresh(s.locks, s.next, s.threads, name);
    LocksElsewhere(s.locks, s.next, s'.next, s.threads, s'.threads, s.next, name);
    assert s'.locks[1..] == s.locks;
    assert LockOk(s'.locks[0], s'.threads);
    forall u | u in s'.threads ensures ThreadOk(s'.threads[u], s'.locks) {
      assert u != t ==> ThreadOk(s.threads[u], s.locks);
    }
  }

  /** The lock at place `i` gets new holders and a new count; the others are not touched. */
  lemma {:induction false} ReplaceAt(locks: seq<DirLock>, next: nat, threads: map<Tid, Thread>, threads': map<Tid,
                                     Thread>,
                                     i: nat, dl: DirLock)
    requires i < |locks| && OneLockPerName(locks) && LocksOk(locks, next, threads)
    requires dl.id == locks[i].id && dl.name == locks[i].name && LockOk(dl, threads')
    requires forall x :: x != dl.id ==> SameHolders(threads, threads', x)
    ensures OneLockPerName(locks[i := dl]) && LocksOk(locks[i := dl], next, threads')
    ensures forall id, name :: Has(locks[i := dl], id, name) == Has(locks, id, name)
    ensures forall id, name :: Fresh(locks[i := dl], id, name) == Fresh(locks, id, name)
  {
    var locks' := locks[i := dl];
    if i == 0 {
      assert locks'[1..] == locks[1..];
      LocksElsewhere(locks[1..], next, next, threads, threads', dl.id, dl.name);
    } else {
      assert locks'[1..] == locks[1..][i - 1 := dl];
      FreshAt(locks[1..], i - 1, locks[0].id, locks[0].name);
      assert SameHolders(threads, threads', locks[0].id);
      ReplaceAt(locks[1..], next, threads, threads', i - 1, dl);
    }
  }

  lemma {:induction false} FreshAt(locks: seq<DirLock>, i: nat, id: nat, name: string)
    requires i < |locks| && Fresh(locks, id, name)
    ensures locks[i].id != id && locks[i].name != name
  {
    if i > 0 {
      FreshAt(locks[1..], i - 1, id, name);
    }
  }

  lemma {:induction false} LockAt(locks: seq<DirLock>, next: nat, threads: map<Tid, Thread>, i: nat)
    requires i < |locks| && LocksOk(locks, next, threads)
    ensures LockOk(locks[i], threads) && Has(locks, locks[i].id, locks[i].name)
  {
    if i > 0 {
      LockAt(locks[1..], next, threads, i - 1);
    }
  }

  /** One more sharer of the lock at place `i`. */
  lemma ShareInv(s: State, t: Tid, i: nat)
    requires Inv(s) && Enabled(s, Acquire(t)) && !s.unlinked && s.threads[t].shared
    requires i == FindName(s.locks, s.threads[t].name) && i < |s.locks| && s.locks[i].sharecnt != 0
    ensures Inv(Apply(s, Acquire(t)))
  {
    var s', dl := Apply(s, Acquire(t)), s.locks[i];
    FindNameFinds(s.locks, s.threads[t].name);
    LockAt(s.locks, s.next, s.threads, i);
    assert Holders(s'.threads, dl.id) == Holders(s.threads, dl.id) + {t};
    assert LockOk(Share(dl), s'.threads);
    forall id | id != dl.id ensures SameHolders(s.threads, s'.threads, id) {
    }
    ReplaceAt(s.locks, s.next, s.threads, s'.threads, i, Share(dl));
    forall u | u in s'.threads ensures ThreadOk(s'.threads[u], s'.locks) {
      assert u != t ==> ThreadOk(s.threads[u], s.locks);
    }
  }

  lemma SleepInv(s: State, t: Tid, i: nat)
    requires Inv(s) && Enabled(s, Acquire(t)) && !s.unlinked
    requires i == FindName(s.locks, s.threads[t].name) && i < |s.locks| && !(s.threads[t].shared && s.locks[i].sharecnt != 0)
    ensures Inv(Apply(s, Acquire(t)))
  {
    var s' := Apply(s, Acquire(t));
    FindNameFinds(s.locks, s.threads[t].name);
    LockAt(s.locks, s.next, s.threads, i);
    forall id ensures SameHolders(s.threads, s'.threads, id) {
    }
    LocksSame(s.locks, s.next, s.threads, s'.threads);
  }

  lemma LeaveInv(s: State, t: Tid)
    requires Inv(s) && Enabled(s, Acquire(t)) && s.unlinked
    ensures Inv(Apply(s, Acquire(t)))
  {
    var s' := Apply(s, Acquire(t));
    forall id ensures SameHolders(s.threads, s'.threads, id) {
    }
    LocksSame(s.locks, s.next, s.threads, s'.threads);
  }

  lemma AcquireInv(s: State, t: Tid)
    requires Inv(s) && Enabled(s, Acquire(t))
    ensures Inv(Apply(s, Acquire(t)))
  {
    FindNameFinds(s.locks, s.threads[t].name);
    var i := FindName(s.locks, s.threads[t].name);
    if s.unlinked {
      LeaveInv(s, t);
    } else if i == |s.locks| {
      CreateInv(s, t);
    } else if s.threads[t].shared && s.locks[i].sharecnt != 0 {
      ShareInv(s, t, i);
    } else {
      SleepInv(s, t, i);
    }
  }

  // ----- unlocking -----

  lemma {:induction false} FindHas(locks: seq<DirLock>, id: nat, name: string)
    requires Has(locks, id, name)
    ensures Find(locks, id) < |locks|
  {
    if locks[0].id != id {
      FindHas(locks[1..], id, name);
    }
  }

  /** A thread that is unlocking always finds its lock in the list. */
  lemma UnlockFinds(s: State, t: Tid)
    requires Inv(s) && t in s.threads && s.threads[t].Unlocking?
    ensures Enabled(s, FinishUnlock(t))
  {
    assert ThreadOk(s.threads[t], s.locks);
    FindHas(s.locks, s.threads[t].id, s.threads[t].name);
  }

  /** A sharer leaves, others remain. */
  lemma UnshareInv(s: State, t: Tid, i: nat)
    requires Inv(s) && Enabled(s, FinishUnlock(t)) && i == Find(s.locks, s.threads[t].id) && s.locks[i].sharecnt > 1
    ensures Inv(Apply(s, FinishUnlock(t)))
  {
    var s', dl := Apply(s, FinishUnlock(t)), s.locks[i];
    FindFinds(s.locks, s.threads[t].id);
    LockAt(s.locks, s.next, s.threads, i);
    assert Holders(s'.threads, dl.id) == Holders(s.threads, dl.id) - {t};
    var dl' := dl.(sharecnt := dl.sharecnt - 1);
    assert t in Holders(s.threads, dl.id);
    assert LockOk(dl', s'.threads);
    forall id | id != dl.id ensures SameHolders(s.threads, s'.threads, id) {
    }
    ReplaceAt(s.locks, s.next, s.threads, s'.threads, i, dl');
    forall u | u in s'.threads ensures ThreadOk(s'.threads[u], s'.locks) {
      assert ThreadOk(s.threads[u], s.locks);
    }
  }

  lemma {:induction false} RemoveAt(locks: seq<DirLock>, next: nat, threads: map<Tid, Thread>, threads': map<Tid,
                                    Thread>,
                                    i: nat, gone: DirLock)
    requires i < |locks| && OneLockPerName(locks) && LocksOk(locks, next, threads) && gone == locks[i]
    requires forall x :: x != gone.id ==> SameHolders(threads, threads', x)
    ensures var locks' := locks[..i] + locks[i + 1..];
            && OneLockPerName(locks') && LocksOk(locks', next, threads')
            && (forall id, name :: id != gone.id && Has(locks, id, name) ==> Has(locks', id, name))
            && (forall id, name :: Fresh(locks, id, name) ==> Fresh(locks', id, name))
  {
    var locks' := locks[..i] + locks[i + 1..];
    if i == 0 {
      assert locks' == locks[1..];
      LocksElsewhere(locks[1..], next, next, threads, threads', gone.id, gone.name);
    } else {
      assert locks'[1..] == locks[1..][..i - 1] + locks[1..][i..];
      FreshAt(locks[1..], i - 1, locks[0].id, locks[0].name);
      assert SameHolders(threads, threads', locks[0].id);
      RemoveAt(locks[1..], next, threads, threads', i - 1, gone);
    }
  }

  /** Waking up the sleepers on `id` and the departure of a holder of `id` change no other lock's holders. */
  lemma DropHolders(threads: map<Tid, Thread>, t: Tid, id: nat, x: nat)
    requires t in threads && Holds(threads[t], id) && x != id
    ensures SameHolders(threads, WakeAll(threads - {t}, id), x)
  {
    assert Holders(threads, x) == Holders(WakeAll(threads - {t}, id), x);
  }

  lemma {:induction false} DropThread(th: Thread, locks: seq<DirLock>, locks': seq<DirLock>, id: nat)
    requires ThreadOk(th, locks) && !Holds(th, id)
    requires forall x, name :: x != id && Has(locks, x, name) ==> Has(locks', x, name)
    ensures ThreadOk(Woken(th, id), locks')
  {
  }

  /** The last holder leaves: the lock goes, and everyone who slept on it is awake. */
  lemma DropInv(s: State, t: Tid, i: nat)
    requires Inv(s) && Enabled(s, FinishUnlock(t)) && i == Find(s.locks, s.threads[t].id) && s.locks[i].sharecnt <= 1
    ensures Inv(Apply(s, FinishUnlock(t)))
  {
    var s', dl := Apply(s, FinishUnlock(t)), s.locks[i];
    FindFinds(s.locks, s.threads[t].id);
    LockAt(s.locks, s.next, s.threads, i);
    var holders := Holders(s.threads, dl.id);
    assert t in holders;
    OnlyOne(holders, t);
    forall id | id != dl.id ensures SameHolders(s.threads, s'.threads, id) {
      DropHolders(s.threads, t, dl.id, id);
    }
    RemoveAt(s.locks, s.next, s.threads, s'.threads, i, dl);
    forall u | u in s'.threads ensures ThreadOk(s'.threads[u], s'.locks) {
      assert u !in holders;
      DropThread(s.threads[u], s.locks, s'.locks, dl.id);
    }
  }

  lemma OnlyOne(ts: set<Tid>, t: Tid)
    requires t in ts && |ts| == 1
    ensures ts == {t}
  {
    assert |ts - {t}| == 0;
  }

  lemma FinishUnlockInv(s: State, t: Tid)
    requires Inv(s) && Enabled(s, FinishUnlock(t))
    ensures Inv(Apply(s, FinishUnlock(t)))
  {
    var i := Find(s.locks, s.threads[t].id);
    if s.locks[i].sharecnt > 1 {
      UnshareInv(s, t, i);
    } else {
      DropInv(s, t, i);
    }
  }

  /** Under the writer's hold the list is empty, except while an unlocker still has the mutex: it gives up the name
      lock before it takes its lock off the list. */
  lemma WriterSeesNoLocks(s: State)
    requires Inv(s) && s.writer.Some?
    ensures s.locks == [] <==> MutexFree(s)
  {
    if s.locks != [] {
      var holders := Holders(s.threads, s.locks[0].id);
      assert |holders| > 0;
      var t :| t in holders;
      assert s.threads[t].Unlocking?;
    }
    if t :| t in s.threads && s.threads[t].Unlocking? {
      assert ThreadOk(s.threads[t], s.locks);
    }
  }

  lemma StepInv(s: State, a: Action)
    requires Inv(s) && Enabled(s, a)
    ensures Inv(Apply(s, a))
  {
    match a
    case Enter(t, name, shared) => EnterInv(s, t, name, shared);
    case Acquire(t) => AcquireInv(s, t);
    case StartUnlock(t) => StartUnlockInv(s, t);
    case FinishUnlock(t) => FinishUnlockInv(s, t);
    case WriterUnlink(t) => WriterSeesNoLocks(s);
    case _ =>
  }

  lemma {:induction false} RunInv(s: State, actions: seq<Action>)
    requires Inv(s) && IsRun(s, actions)
    ensures Inv(After(s, actions))
    decreases |actions|
  {
    if actions != [] {
      StepInv(s, actions[0]);
      RunInv(Apply(s, actions[0]), actions[1..]);
    }
  }

  // ----- what it means for callers -----

  predicate HoldsName(s: State, t: Tid, name: string) {
    t in s.threads && (s.threads[t].Holding? || s.threads[t].Unlocking?) && s.threads[t].name == name
  }

  lemma {:induction false} SameLock(locks: seq<DirLock>, id: nat, id': nat, name: string)
    requires OneLockPerName(locks) && Has(locks, id, name) && Has(locks, id', name)
    ensures id == id'
  {
    if locks[0].name == name {
      if Has(locks[1..], id, name) {
        FreshHas(locks[1..], locks[0].id, id, name);
      }
      if Has(locks[1..], id', name) {
        FreshHas(locks[1..], locks[0].id, id', name);
      }
    } else {
      SameLock(locks[1..], id, id', name);
    }
  }

  lemma {:induction false} FreshHas(locks: seq<DirLock>, id: nat, id': nat, name: string)
    requires Fresh(locks, id, name)
    ensures !Has(locks, id', name)
  {
    if locks != [] {
      FreshHas(locks[1..], id, id', name);
    }
  }

  lemma {:induction false} FindLock(locks: seq<DirLock>, next: nat, threads: map<Tid, Thread>, id: nat, name: string)
    returns (dl: DirLock)
    requires LocksOk(locks, next, threads) && Has(locks, id, name)
    ensures dl in locks && dl.id == id && dl.name == name && LockOk(dl, threads)
  {
    if locks[0].id == id && locks[0].name == name {
      dl := locks[0];
    } else {
      dl := FindLock(locks[1..], next, threads, id, name);
    }
  }

  /** Two threads have the same name locked only when both asked to share it. */
  lemma Exclusion(s: State, t: Tid, u: Tid, name: string)
    requires Inv(s) && t != u && HoldsName(s, t, name) && HoldsName(s, u, name)
    ensures s.threads[t].shared && s.threads[u].shared
  {
    assert ThreadOk(s.threads[t], s.locks) && ThreadOk(s.threads[u], s.locks);
    SameLock(s.locks, s.threads[t].id, s.threads[u].id, name);
    var dl := FindLock(s.locks, s.next, s.threads, s.threads[t].id, name);
    var holders := Holders(s.threads, dl.id);
    assert t in holders && u in holders;
    if dl.sharecnt == 0 {
      OnlyOne(holders, t);
    }
  }

  lemma {:induction false} NameListed(locks: seq<DirLock>, id: nat, name: string)
    requires Has(locks, id, name)
    ensures FindName(locks, name) < |locks|
  {
    if locks[0].name != name {
      NameListed(locks[1..], id, name);
    }
  }

  /** A listed lock has a holder, who has its name locked, and shares it exactly if the lock counts sharers. */
  lemma ListedHasHolder(s: State, i: nat) returns (u: Tid)
    requires Inv(s) && i < |s.locks|
    ensures HoldsName(s, u, s.locks[i].name) && s.threads[u].shared == (s.locks[i].sharecnt != 0)
  {
    var dl := s.locks[i];
    LockAt(s.locks, s.next, s.threads, i);
    var holders := Holders(s.threads, dl.id);
    assert |holders| > 0;
    u :| u in holders;
    assert ThreadOk(s.threads[u], s.locks);
    SameId(s.locks, dl.id, dl.name, s.threads[u].name);
  }

  /** Somebody has the name locked and one of the two does not want to share it. */
  ghost predicate NameTaken(s: State, name: string, shared: bool) {
    exists u :: HoldsName(s, u, name) && !(shared && s.threads[u].shared)
  }

  lemma TakenIsListed(s: State, name: string, shared: bool)
    requires Inv(s)
    ensures FindName(s.locks, name) <= |s.locks|
    ensures NameTaken(s, name, shared) <==>
            FindName(s.locks, name) < |s.locks| && !(shared && s.locks[FindName(s.locks, name)].sharecnt != 0)
  {
    FindNameFinds(s.locks, name);
    var i := FindName(s.locks, name);
    if i < |s.locks| {
      var u := ListedHasHolder(s, i);
      LockAt(s.locks, s.next, s.threads, i);
    }
    if NameTaken(s, name, shared) {
      var u :| HoldsName(s, u, name) && !(shared && s.threads[u].shared);
      assert ThreadOk(s.threads[u], s.locks);
      NameListed(s.locks, s.threads[u].id, name);
      SameLock(s.locks, s.threads[u].id, s.locks[i].id, name);
      assert u in Holders(s.threads, s.locks[i].id);
    }
  }

  /** In a directory that is not removed, a thread that asks for a name gets it at once unless somebody has it and one
      of the two does not want to share: a second sharer is let in. */
  lemma Admission(s: State, t: Tid)
    requires Inv(s) && Enabled(s, Acquire(t)) && !s.unlinked
    ensures var s' := Apply(s, Acquire(t));
            t in s'.threads && if NameTaken(s, s.threads[t].name, s.threads[t].shared) then s'.threads[t].Asleep?
                               else HoldsName(s', t, s.threads[t].name) && s'.threads[t].shared == s.threads[t].shared
  {
    TakenIsListed(s, s.threads[t].name, s.threads[t].shared);
  }

  /** Nobody sleeps for nothing: the lock slept on is listed, is for the wanted name, and has a holder who will wake
      the sleeper. */
  lemma SleeperHasHolder(s: State, t: Tid)
    requires Inv(s) && t in s.threads && s.threads[t].Asleep?
    ensures exists u :: u in s.threads && Holds(s.threads[u], s.threads[t].on) && HoldsName(s, u, s.threads[t].name)
  {
    var name, id := s.threads[t].name, s.threads[t].on;
    assert ThreadOk(s.threads[t], s.locks);
    var dl := FindLock(s.locks, s.next, s.threads, id, name);
    assert |Holders(s.threads, id)| > 0;
    var u :| u in Holders(s.threads, id);
    assert ThreadOk(s.threads[u], s.locks);
    SameId(s.locks, id, name, s.threads[u].name);
  }

  lemma {:induction false} SameId(locks: seq<DirLock>, id: nat, name: string, name': string)
    requires OneLockPerName(locks) && Has(locks, id, name) && Has(locks, id, name')
    ensures name == name'
  {
    if locks[0].id == id {
      if Has(locks[1..], id, name) {
        FreshHasId(locks[1..], id, locks[0].name, name);
      }
      if Has(locks[1..], id, name') {
        FreshHasId(locks[1..], id, locks[0].name, name');
      }
    } else {
      SameId(locks[1..], id, name, name');
    }
  }

  lemma {:induction false} FreshHasId(locks: seq<DirLock>, id: nat, name: string, name': string)
    requires Fresh(locks, id, name)
    ensures !Has(locks, id, name')
  {
    if locks != [] {
      FreshHasId(locks[1..], id, name, name');
    }
  }

  /** In every reachable state: at most one lock per name, each with exactly its holders and a name that outlives
      whoever may leave; nobody has a lock in a removed directory. */
  lemma {:induction false} RunGuarantees(actions: seq<Action>)
    requires IsRun(INIT, actions)
    ensures var s := After(INIT, actions);
            && Inv(s)
            && (forall t, u, name :: t != u && HoldsName(s, t, name) && HoldsName(s, u, name) ==>
                  s.threads[t].shared && s.threads[u].shared)
            && (forall i :: 0 <= i < |s.locks| ==> LockOk(s.locks[i], s.threads))
            && (forall t :: t in s.threads && s.threads[t].Unlocking? ==> Enabled(s, FinishUnlock(t)))
            && (s.writer.Some? ==> (s.locks == [] <==> MutexFree(s)))
            && (s.unlinked ==> forall t :: t in s.threads ==> s.threads[t].Entering?)
  {
    RunInv(INIT, actions);
    var s := After(INIT, actions);
    forall t, u, name | t != u && HoldsName(s, t, name) && HoldsName(s, u, name)
      ensures s.threads[t].shared && s.threads[u].shared
    {
      Exclusion(s, t, u, name);
    }
    forall i | 0 <= i < |s.locks| ensures LockOk(s.locks[i], s.threads) {
      LockAt(s.locks, s.next, s.threads, i);
    }
    forall t | t in s.threads && s.threads[t].Unlocking? ensures Enabled(s, FinishUnlock(t)) {
      UnlockFinds(s, t);
    }
    if s.writer.Some? {
      WriterSeesNoLocks(s);
    }
    forall t | s.unlinked && t in s.threads ensures s.threads[t].Entering? {
      assert ThreadOk(s.threads[t], s.locks);
    }
  }

  /** The writer can have the name lock while a name lock is still listed. */
  lemma LateRemoval()
    ensures exists actions :: IsRun(INIT, actions) && After(INIT, actions).writer.Some? && After(INIT, actions).locks != []
  {
    var s1 := Apply(INIT, Enter(0, "a", false));
    var s2 := Apply(s1, Acquire(0));
    assert s2.locks[0] == DirLock(0, "a", 0, false, 0) && s2.threads[0] == Holding("a", false, 0);
    var s3 := Apply(s2, StartUnlock(0));
    var s4 := Apply(s3, WriterEnter(1));
    var last := [WriterEnter(1)];
    assert IsRun(s3, last) && After(s3, last) == s4 by {
      assert last[1..] == [];
    }
    var last2 := [StartUnlock(0)] + last;
    assert IsRun(s2, last2) && After(s2, last2) == s4 by {
      assert last2[1..] == last;
    }
    var last3 := [Acquire(0)] + last2;
    assert IsRun(s1, last3) && After(s1, last3) == s4 by {
      assert last3[1..] == last2;
    }
    var all := [Enter(0, "a", false)] + last3;
    assert IsRun(INIT, all) && After(INIT, all) == s4 by {
      assert all[1..] == last3;
    }
  }
}
