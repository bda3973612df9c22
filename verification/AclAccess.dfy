/**
 The loops that evaluate an ACL: access checking with early exit, and the mode computation. Each is proved to
 implement the declarative first-match rule.
 */
module AclAccess {
  import opened AclModel

  datatype Access = Ok | Eacces | Unresolved

  /** The requested bits that end up with the given verdict. */
  ghost function BitsWith(acl: Acl, file: File, cred: Cred, want: Mask, v: Verdict): Mask {
    set p | p in want && Decide(acl, file, cred, p) == v
  }

  lemma {:induction false} DecideStep(acl: Acl, i: nat, file: File, cred: Cred, p: Perm)
    requires i < |acl|
    ensures Decide(acl[i..], file, cred, p) ==
            if Applies(acl[i], file, cred) && p in acl[i].mask then (if acl[i].typ == Deny then Denied else Granted)
            else Decide(acl[i + 1..], file, cred, p)
  {
    assert acl[i..][1..] == acl[i + 1..];
  }

  /** The state of the access loop before entry `i`: the bits in `working` are still open, those in `denied` are
      lost, all others are granted. */
  ghost predicate Evaluated(acl: Acl, i: nat, file: File, cred: Cred, want: Mask, working: Mask, denied: Mask)
    requires i <= |acl|
  {
    && working <= want && denied <= want && working !! denied
    && forall p :: p in want ==>
         Decide(acl, file, cred, p) ==
           if p in working then Decide(acl[i..], file, cred, p) else if p in denied then Denied else Granted
  }

  /** zfs_zaccess_common's loop: grants, denies or leaves open, and returns the bits that were not granted. */
  method CheckAccess(acl: Acl, file: File, cred: Cred, want: Mask) returns (result: Access, working: Mask)
    ensures result == Ok <==> forall p :: p in want ==> Decide(acl, file, cred, p) == Granted
    ensures result == Eacces <==> exists p :: p in want && Decide(acl, file, cred, p) == Denied
    ensures working == BitsWith(acl, file, cred, want, Denied) + BitsWith(acl, file, cred, want, Undecided)
  {
    working := want;
    var denied: Mask := {};
    var i := 0;
    assert acl[0..] == acl;
    while i < |acl| && working != {}
      invariant i <= |acl| && Evaluated(acl, i, file, cred, want, working, denied)
    {
      forall p ensures Decide(acl[i..], file, cred, p) ==
            if Applies(acl[i], file, cred) && p in acl[i].mask then (if acl[i].typ == Deny then Denied else Granted)
            else Decide(acl[i + 1..], file, cred, p)
      {
        DecideStep(acl, i, file, cred, p);
      }
      if Applies(acl[i], file, cred) {
        var matched := acl[i].mask * working;
        if acl[i].typ == Deny {
          denied := denied + matched;
        }
        working := working - matched;
      }
      i := i + 1;
    }
    assert forall p :: p in working ==> Decide(acl, file, cred, p) == Undecided;
    if denied != {} {
      working := working + denied;
      result := Eacces;
    } else if working != {} {
      result := Unresolved;
    } else {
      result := Ok;
    }
  }

  // ----- the mode computation -----

  /** What the code's `seen` and `mode` words hold for one class. */
  datatype Progress = Progress(seen: Mask, mode: Mask)

  /** The state of the mode loop before entry `i`, for one class. */
  ghost predicate Computed(acl: Acl, i: nat, c: Class, s: Progress)
    requires i <= |acl|
  {
    && s.mode <= s.seen
    && forall p :: p in {ReadData, WriteData, Execute} ==>
         (ModeBit(acl, c, p) <==> if p in s.seen then p in s.mode else ModeBit(acl[i..], c, p))
  }

  function Note(s: Progress, a: Ace, p: Perm): Progress {
    if p in a.mask && p !in s.seen then Progress(s.seen + {p}, if a.typ == Allow then s.mode + {p} else s.mode) else s
  }

  function NoteAll(s: Progress, a: Ace): Progress {
    Note(Note(Note(s, a, ReadData), a, WriteData), a, Execute)
  }

  lemma NoteAllIs(s: Progress, a: Ace, p: Perm)
    requires p in {ReadData, WriteData, Execute}
    ensures p in NoteAll(s, a).seen <==> p in s.seen || p in a.mask
    ensures p in NoteAll(s, a).mode <==> p in s.mode || (p in a.mask && p !in s.seen && a.typ == Allow)
  {
  }

  lemma NoteKeeps(acl: Acl, i: nat, c: Class, s: Progress)
    requires i < |acl| && Computed(acl, i, c, s)
    ensures Computed(acl, i + 1, c, if SpeaksFor(acl[i], c) then NoteAll(s, acl[i]) else s)
  {
    assert acl[i..][1..] == acl[i + 1..];
    forall p | p in {ReadData, WriteData, Execute}
      ensures p in NoteAll(s, acl[i]).seen <==> p in s.seen || p in acl[i].mask
      ensures p in NoteAll(s, acl[i]).mode <==> p in s.mode || (p in acl[i].mask && p !in s.seen && acl[i].typ == Allow)
    {
      NoteAllIs(s, acl[i], p);
    }
    assert NoteAll(s, acl[i]).mode <= NoteAll(s, acl[i]).seen;
  }

  /** zfs_mode_fuid_compute: one pass that fills in the three classes side by side. */
  method ComputeMode(acl: Acl, high: nat) returns (mode: Mode)
    ensures mode == ModeOf(acl, high)
  {
    var u, g, o := Progress({}, {}), Progress({}, {}), Progress({}, {});
    var i := 0;
    assert acl[0..] == acl;
    while i < |acl|
      invariant i <= |acl|
      invariant Computed(acl, i, UserClass, u) && Computed(acl, i, GroupClass, g) && Computed(acl, i, OtherClass, o)
    {
      var a := acl[i];
      NoteKeeps(acl, i, UserClass, u);
      NoteKeeps(acl, i, GroupClass, g);
      NoteKeeps(acl, i, OtherClass, o);
      if a.flags.inheritOnly && !Named(a.who) {
      } else if a.who == Owner {
        u := NoteAll(u, a);
      } else if a.who == OwningGroup {
        g := NoteAll(g, a);
      } else if a.who == Everyone {
        u, g, o := NoteAll(u, a), NoteAll(g, a), NoteAll(o, a);
      }
      i := i + 1;
    }
    mode := Mode(high, ToRwx(u.mode), ToRwx(g.mode), ToRwx(o.mode));
  }

  function ToRwx(m: Mask): Rwx {
    Rwx(ReadData in m, WriteData in m, Execute in m)
  }
}
