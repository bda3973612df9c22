/**
 Groupmask mode, exactly: for which lists chmod leaves a named entry that grants more than the mode allows.
 */
module AclChmodGroupmask {
  import opened AclModel
  import opened AclChmodMode
  import opened AclChmodAccess

  // ----- the bound -----

  /** For this requester and bit: a named entry that decides in favour grants nothing that the mode leaves out. */
  predicate BoundAt(acl: Acl, mode: Mode, file: File, cred: Cred, p: Perm) {
    var d := Decider(acl, file, cred, p);
    d.Some? && Named(d.ace.who) && d.ace.typ == Allow ==> p in ModeBits(ClassRwx(d.ace.who, mode, file.owner))
  }

  /** The bound for every requester, on every directory of this owner. */
  ghost predicate Bounded(acl: Acl, mode: Mode, owner: nat) {
    forall file: File, cred: Cred, p: Perm | file.isDir && file.owner == owner && p in RWXA ::
      BoundAt(acl, mode, file, cred, p)
  }

  // ----- the condition on the list before the call -----

  /** An entry, followed by `rest`, settles a bit for its principal: it mentions the bit, or it is a deny that the
      walk will reuse for the allow entry after it, and that one mentions the bit. */
  predicate Settles(a: Ace, rest: Acl, p: Perm) {
    p in a.mask ||
    (rest != [] && Effective(rest[0]) && !NeedsSplit(rest[0]) && WouldReuse(a, rest[0]) && p in rest[0].mask)
  }

  /** The walk takes the entry before `a`, which is about somebody else, for the deny that belongs to `a`. */
  predicate TakesForeign(prev: Held, a: Ace) {
    Effective(a) && !NeedsSplit(a) && prev.Some? && WouldReuse(prev.ace, a) && prev.ace.who != a.who
  }

  /** The first entry in force for `who` that settles the bit is an allow entry with a foreign deny. */
  predicate Escapes(prev: Held, acl: Acl, who: Who, p: Perm)
    decreases |acl|
  {
    acl != [] &&
    var a := acl[0];
    if a.who == who && !a.flags.inheritOnly && Settles(a, acl[1..], p) then TakesForeign(prev, a)
    else Escapes(Some(a), acl[1..], who, p)
  }

  /** A principal that some requester can have, and a bit that the mode does not let it have. */
  predicate Withheld(who: Who, p: Perm, mode: Mode, owner: nat) {
    Named(who) && who != User(CREATOR_OWNER_UID) && p in RWXA && p !in ModeBits(ClassRwx(who, mode, owner))
  }

  ghost predicate NothingEscapes(acl: Acl, mode: Mode, owner: nat) {
    forall who: Who, p: Perm | Withheld(who, p, mode, owner) :: !Escapes(None, acl, who, p)
  }

  // ----- the first entry about a principal -----

  function FirstAbout(acl: Acl, who: Who, p: Perm): Held {
    if acl == [] then None
    else if acl[0].who == who && !acl[0].flags.inheritOnly && p in acl[0].mask then Some(acl[0])
    else FirstAbout(acl[1..], who, p)
  }

  predicate Lets(acl: Acl, who: Who, p: Perm) {
    var d := FirstAbout(acl, who, p);
    d.Some? && d.ace.typ == Allow
  }

  lemma {:induction false} FirstAppend(a: Acl, b: Acl, who: Who, p: Perm)
    ensures FirstAbout(a + b, who, p) ==
            if FirstAbout(a, who, p).Some? then FirstAbout(a, who, p) else FirstAbout(b, who, p)
  {
    if a == [] {
      assert a + b == b;
    } else {
      FirstAppend(a[1..], b, who, p);
      assert (a + b)[1..] == a[1..] + b;
    }
  }

  lemma {:induction false} FirstUnnamed(acl: Acl, who: Who, p: Perm)
    requires NoneNamed(acl) && Named(who)
    ensures FirstAbout(acl, who, p) == None
  {
    if acl != [] {
      FirstUnnamed(acl[1..], who, p);
    }
  }

  /** On a directory, an entry that decides is the first one about its principal. */
  lemma {:induction false} DeciderIsFirst(acl: Acl, file: File, cred: Cred, p: Perm)
    requires file.isDir && Decider(acl, file, cred, p).Some?
    ensures var d := Decider(acl, file, cred, p); FirstAbout(acl, d.ace.who, p) == d && Matches(d.ace.who, file, cred)
  {
    if !(Applies(acl[0], file, cred) && p in acl[0].mask) {
      DeciderIsFirst(acl[1..], file, cred, p);
    }
  }

  /** A requester who is nobody but `who`, as far as named entries go. */
  function Lone(who: Who): Cred
    requires Named(who)
  {
    match who
    case User(uid) => Cred(uid, {})
    case Group(gid) => Cred(CREATOR_OWNER_UID, {gid})
  }

  lemma LoneMatches(who: Who, other: Who, file: File)
    requires Named(who) && Named(other) && who != User(CREATOR_OWNER_UID)
    ensures Matches(other, file, Lone(who)) <==> other == who
  {
  }

  /** Once owner@, group@ and everyone@ are cleared, that requester's bits are decided by the entries about them. */
  lemma {:induction false} LoneDecider(acl: Acl, file: File, who: Who, p: Perm)
    requires AllClean(acl) && file.isDir && p in RWXA && Named(who) && who != User(CREATOR_OWNER_UID)
    ensures Decider(acl, file, Lone(who), p) == FirstAbout(acl, who, p)
  {
    if acl != [] {
      LoneDecider(acl[1..], file, who, p);
      if Named(acl[0].who) {
        LoneMatches(who, acl[0].who, file);
      }
    }
  }

  lemma {:induction false} DeciderAppend(a: Acl, b: Acl, file: File, cred: Cred, p: Perm)
    requires Decider(a, file, cred, p).Some?
    ensures Decider(a + b, file, cred, p) == Decider(a, file, cred, p)
  {
    assert (a + b)[1..] == a[1..] + b;
    if !(Applies(a[0], file, cred) && p in a[0].mask) {
      DeciderAppend(a[1..], b, file, cred, p);
    }
  }

  // ----- what the walk makes of the first entry -----

  /** The entry that the walk still holds settles the bit. */
  predicate HeldSettles(held: Held, rest: Acl, who: Who, p: Perm) {
    held.Some? && held.ace.who == who && !held.ace.flags.inheritOnly && Settles(held.ace, rest, p)
  }

  /** The deny put in front of an allow entry speaks about the withheld bits of that entry, for its own principal. */
  lemma DenySpeaks(held: Held, a: Ace, who: Who, p: Perm, mode: Mode, owner: nat)
    requires Effective(a) && !NeedsSplit(a) && Withheld(who, p, mode, owner)
    ensures var deny, allow := DenyFor(held, a, mode, owner), AllowAfter(held, a, mode, owner);
            && (deny.who == who ==> (p in deny.mask <==> p in a.mask))
            && (a.who == who ==> (p in allow.mask <==> p in a.mask))
            && deny.typ == Deny && deny.flags == NO_FLAGS
            && deny.who == (if Reuses(held, a) then held.ace.who else a.who)
            && allow.who == a.who && allow.typ == Allow && allow.flags == a.flags
  {
    var deny := DenyFor(held, a, mode, owner);
    assert deny.who.Group? <==> a.who.Group?;
    assert ExtraBits(mode) <= ModeBits(mode.group);
  }

  /** What is settled after an entry has been looked at. */
  lemma FirstOfPush(held: Held, acl: Acl, who: Who, p: Perm)
    ensures FirstAbout(Push(held, acl), who, p) ==
            if held.Some? && held.ace.who == who && !held.ace.flags.inheritOnly && p in held.ace.mask then held
            else FirstAbout(acl, who, p)
  {
    assert held.Some? ==> ([held.ace] + acl)[1..] == acl;
  }

  lemma PushThen(held: Held, a: Ace, tail: Acl)
    ensures Push(held, [a]) + tail == Push(held, [a] + tail)
  {
    assert held.Some? ==> ([held.ace] + [a]) + tail == [held.ace] + ([a] + tail);
  }

  lemma {:induction false} SamePrevEscapes(a: Ace, rest: Acl, who: Who, p: Perm)
    requires NeedsSplit(a)
    ensures Escapes(Some(ActiveHalf(a)), rest, who, p) <==> Escapes(Some(a), rest, who, p)
    ensures Settles(ActiveHalf(a), rest, p) <==> Settles(a, rest, p)
  {
    assert rest != [] ==> (WouldReuse(ActiveHalf(a), rest[0]) <==> WouldReuse(a, rest[0]));
  }

  lemma {:induction false} ActiveEscapes(prev: Held, rest: Acl, rest': Acl, who: Who, p: Perm)
    requires rest != [] && NeedsSplit(rest[0]) && rest' == [ActiveHalf(rest[0])] + rest[1..]
    ensures Escapes(None, rest', who, p) <==> Escapes(prev, rest, who, p)
  {
    assert rest'[1..] == rest[1..];
    SamePrevEscapes(rest[0], rest[1..], who, p);
  }

  /** What holding `held`, with `rest` still to come, promises about a withheld bit. */
  predicate Promise(held: Held, prev: Held, rest: Acl, who: Who, p: Perm) {
    if HeldSettles(held, rest, who, p) then held.ace.typ == Allow else Escapes(prev, rest, who, p)
  }

  lemma {:induction false} SplitLets(held: Held, prev: Held, rest: Acl, tail: Acl, who: Who, p: Perm)
    requires rest != [] && NeedsSplit(rest[0])
    requires Lets(tail, who, p) <==> Escapes(prev, rest, who, p)
    ensures Lets(Push(held, [InheritHalf(rest[0])]) + tail, who, p) <==> Promise(held, prev, rest, who, p)
  {
    PushThen(held, InheritHalf(rest[0]), tail);
    FirstOfPush(held, [InheritHalf(rest[0])] + tail, who, p);
    FirstOfPush(Some(InheritHalf(rest[0])), tail, who, p);
  }

  lemma {:induction false} QuietLets(held: Held, prev: Held, rest: Acl, tail: Acl, who: Who, p: Perm)
    requires rest != [] && !NeedsSplit(rest[0]) && rest[0].typ != Special && Named(who)
    requires Skipped(rest[0]) || !NeedsDeny(rest[0], Groupmask)
    requires Lets(tail, who, p) <==>
             Promise(Some(if Skipped(rest[0]) then rest[0] else Cleared(rest[0])), Some(rest[0]), rest[1..], who, p)
    ensures Lets(Push(held, []) + tail, who, p) <==> Promise(held, prev, rest, who, p)
  {
    FirstAppend(Push(held, []), tail, who, p);
    FirstOfPush(held, [], who, p);
  }

  /** An allow entry settles just the bits that it mentions. */
  lemma {:induction false} AllowPromise(held: Held, prev: Held, rest: Acl, who: Who, p: Perm, mode: Mode, owner: nat)
    requires rest != [] && Effective(rest[0]) && !NeedsSplit(rest[0]) && Withheld(who, p, mode, owner)
    ensures Promise(Some(AllowAfter(held, rest[0], mode, owner)), Some(rest[0]), rest[1..], who, p) <==>
            (rest[0].who == who && p in rest[0].mask) || Escapes(Some(rest[0]), rest[1..], who, p)
    ensures Escapes(prev, rest, who, p) <==>
            if rest[0].who == who && p in rest[0].mask then TakesForeign(prev, rest[0])
            else Escapes(Some(rest[0]), rest[1..], who, p)
  {
    DenySpeaks(held, rest[0], who, p, mode, owner);
  }

  lemma {:induction false} ReuseLets(held: Held, prev: Held, rest: Acl, tail: Acl, who: Who, p: Perm, mode: Mode,
                                     owner: nat)
    requires HeldFor(held, prev) && held.Some? && !NeedsSplit(held.ace) && Withheld(who, p, mode, owner)
    requires rest != [] && Effective(rest[0]) && !NeedsSplit(rest[0]) && Reuses(held, rest[0])
    requires Lets(tail, who, p) <==>
             (rest[0].who == who && p in rest[0].mask) || Escapes(Some(rest[0]), rest[1..], who, p)
    requires Escapes(prev, rest, who, p) <==>
             if rest[0].who == who && p in rest[0].mask then TakesForeign(prev, rest[0])
             else Escapes(Some(rest[0]), rest[1..], who, p)
    ensures Lets([DenyFor(held, rest[0], mode, owner)] + tail, who, p) <==> Promise(held, prev, rest, who, p)
  {
    FirstOfPush(Some(DenyFor(held, rest[0], mode, owner)), tail, who, p);
    DenySpeaks(held, rest[0], who, p, mode, owner);
    ReuseFor(held, prev, rest[0]);
    assert HeldSettles(held, rest, who, p) <==> held.ace.who == who && p in rest[0].mask;
  }

  lemma NotReused(held: Held, prev: Held, rest: Acl, who: Who, p: Perm)
    requires HeldFor(held, prev) && (held.Some? ==> !NeedsSplit(held.ace)) && rest != [] && !Reuses(held, rest[0])
    ensures !TakesForeign(prev, rest[0])
    ensures HeldSettles(held, rest, who, p) <==>
            held.Some? && held.ace.who == who && !held.ace.flags.inheritOnly && p in held.ace.mask
  {
    ReuseFor(held, prev, rest[0]);
  }

  lemma {:induction false} NewDenyLets(held: Held, prev: Held, rest: Acl, tail: Acl, who: Who, p: Perm, mode: Mode,
                                       owner: nat)
    requires HeldFor(held, prev) && (held.Some? ==> !NeedsSplit(held.ace)) && Withheld(who, p, mode, owner)
    requires rest != [] && Effective(rest[0]) && !NeedsSplit(rest[0]) && !Reuses(held, rest[0])
    requires Lets(tail, who, p) <==>
             (rest[0].who == who && p in rest[0].mask) || Escapes(Some(rest[0]), rest[1..], who, p)
    requires Escapes(prev, rest, who, p) <==>
             if rest[0].who == who && p in rest[0].mask then TakesForeign(prev, rest[0])
             else Escapes(Some(rest[0]), rest[1..], who, p)
    ensures Lets(Push(held, [DenyFor(held, rest[0], mode, owner)]) + tail, who, p) <==>
            Promise(held, prev, rest, who, p)
  {
    var deny := DenyFor(held, rest[0], mode, owner);
    PushThen(held, deny, tail);
    FirstOfPush(held, [deny] + tail, who, p);
    FirstOfPush(Some(deny), tail, who, p);
    DenySpeaks(held, rest[0], who, p, mode, owner);
    NotReused(held, prev, rest, who, p);
  }

  lemma {:induction false} DenyLets(held: Held, prev: Held, rest: Acl, tail: Acl, who: Who, p: Perm, mode: Mode,
                                    owner: nat)
    requires HeldFor(held, prev) && (held.Some? ==> !NeedsSplit(held.ace)) && Withheld(who, p, mode, owner)
    requires rest != [] && Effective(rest[0]) && !NeedsSplit(rest[0])
    requires Lets(tail, who, p) <==>
             Promise(Some(AllowAfter(held, rest[0], mode, owner)), Some(rest[0]), rest[1..], who, p)
    ensures Lets(Front(held, rest[0], Groupmask, mode, owner) + tail, who, p) <==> Promise(held, prev, rest, who, p)
  {
    AllowPromise(held, prev, rest, who, p, mode, owner);
    if Reuses(held, rest[0]) {
      ReuseLets(held, prev, rest, tail, who, p, mode, owner);
    } else {
      NewDenyLets(held, prev, rest, tail, who, p, mode, owner);
    }
  }

  /** The walk lets a principal have a withheld bit exactly when the held entry says so, or it is silent and the bit
      escapes in the rest. */
  lemma {:induction false} RewriteLets(held: Held, prev: Held, rest: Acl, who: Who, p: Perm, mode: Mode, owner: nat)
    requires HeldFor(held, prev) && (held.Some? ==> !NeedsSplit(held.ace))
    requires AllowDeny(rest) && Withheld(who, p, mode, owner)
    ensures Lets(Rewrite(held, rest, Groupmask, mode, owner), who, p) <==> Promise(held, prev, rest, who, p)
    decreases |rest|, rest != [] && NeedsSplit(rest[0])
  {
    if rest == [] {
      FirstOfPush(held, [], who, p);
    } else if NeedsSplit(rest[0]) {
      var rest' := [ActiveHalf(rest[0])] + rest[1..];
      assert rest'[1..] == rest[1..];
      RewriteLets(None, None, rest', who, p, mode, owner);
      ActiveEscapes(prev, rest, rest', who, p);
      SplitLets(held, prev, rest, Rewrite(None, rest', Groupmask, mode, owner), who, p);
    } else {
      var next := NextHeld(held, rest[0], Groupmask, mode, owner);
      NextHeldFor(held, rest[0], mode, owner);
      RewriteLets(next, Some(rest[0]), rest[1..], who, p, mode, owner);
      if Skipped(rest[0]) || !NeedsDeny(rest[0], Groupmask) {
        QuietLets(held, prev, rest, Rewrite(next, rest[1..], Groupmask, mode, owner), who, p);
      } else {
        DenyLets(held, prev, rest, Rewrite(next, rest[1..], Groupmask, mode, owner), who, p, mode, owner);
      }
    }
  }

  // ----- exactly when the bound holds -----

  lemma {:induction false} PrefixLets(acl: Acl, n: nat, who: Who, p: Perm)
    requires n <= |acl| && NoneNamed(acl[n..]) && Named(who)
    ensures Lets(acl[..n], who, p) <==> Lets(acl, who, p)
  {
    FirstAppend(acl[..n], acl[n..], who, p);
    FirstUnnamed(acl[n..], who, p);
    assert acl[..n] + acl[n..] == acl;
  }

  lemma {:induction false} CloseParts(walked: Acl, tail: nat, mode: Mode) returns (n: nat, six: Acl)
    requires AllClean(walked)
    ensures n <= |walked| && CloseWithSix(walked, tail, mode) == walked[..n] + six
    ensures NoneNamed(walked[n..]) && NoneNamed(six) && AllClean(walked[..n])
  {
    if HasCanonicalSix(walked, tail) {
      n := |walked| - 6;
      six := FixSix(walked[n..], mode);
      SixUnnamed(walked[n..], mode);
    } else {
      n := |walked|;
      six := FixSix(FRESH_SIX, mode);
      SixUnnamed(FRESH_SIX, mode);
      assert walked[..n] == walked;
    }
    CleanPrefix(walked, n);
  }

  /** The list after the call is a clean list closed by six entries that name nobody. */
  lemma {:induction false} ChmodParts(acl: Acl, last: nat, mode: Mode, owner: nat) returns (base: Acl, six: Acl)
    requires AllowDeny(acl)
    ensures Chmod(acl, last, Groupmask, mode, owner) == base + six && AllClean(base) && NoneNamed(six)
    ensures forall who, p | Withheld(who, p, mode, owner) :: Lets(base, who, p) <==> Escapes(None, acl, who, p)
  {
    var walked := Rewrite(None, acl, Groupmask, mode, owner);
    RewriteClean(None, acl, Groupmask, mode, owner);
    var n;
    n, six := CloseParts(walked, TailCount(None, acl, last, Groupmask, mode, owner), mode);
    base := walked[..n];
    forall who, p | Withheld(who, p, mode, owner)
      ensures Lets(walked[..n], who, p) <==> Escapes(None, acl, who, p)
    {
      RewriteLets(None, None, acl, who, p, mode, owner);
      PrefixLets(walked, n, who, p);
    }
  }

  /** In groupmask mode chmod bounds every requester on a directory by the mode if and only if there is no named
      principal and no bit that the mode withholds from it such that the first entry in force that settles the bit
      for this principal is an allow entry for which the deny of somebody else is reused. */
  lemma {:induction false} GroupmaskExact(acl: Acl, last: nat, mode: Mode, owner: nat)
    requires AllowDeny(acl)
    ensures Bounded(Chmod(acl, last, Groupmask, mode, owner), mode, owner) <==> NothingEscapes(acl, mode, owner)
  {
    var out := Chmod(acl, last, Groupmask, mode, owner);
    var base, six := ChmodParts(acl, last, mode, owner);
    if NothingEscapes(acl, mode, owner) {
      forall file: File, cred: Cred, p: Perm | file.isDir && file.owner == owner && p in RWXA
        ensures BoundAt(out, mode, file, cred, p)
      {
        BoundHolds(acl, base, six, mode, file, cred, p);
      }
    }
    if Bounded(out, mode, owner) {
      forall who: Who, p: Perm | Withheld(who, p, mode, owner) ensures !Escapes(None, acl, who, p) {
        assert BoundAt(out, mode, File(true, owner, 0), Lone(who), p);
        if Lets(base, who, p) {
          BoundFails(base, six, mode, owner, who, p);
        }
      }
    }
  }

  lemma {:induction false} BoundHolds(acl: Acl, base: Acl, six: Acl, mode: Mode, file: File, cred: Cred, p: Perm)
    requires NothingEscapes(acl, mode, file.owner) && NoneNamed(six) && file.isDir && p in RWXA
    requires forall who, p | Withheld(who, p, mode, file.owner) :: Lets(base, who, p) <==> Escapes(None, acl, who, p)
    ensures BoundAt(base + six, mode, file, cred, p)
  {
    var d := Decider(base + six, file, cred, p);
    if d.Some? && Named(d.ace.who) && d.ace.typ == Allow && p !in ModeBits(ClassRwx(d.ace.who, mode, file.owner)) {
      DeciderIsFirst(base + six, file, cred, p);
      FirstAppend(base, six, d.ace.who, p);
      FirstUnnamed(six, d.ace.who, p);
      assert Withheld(d.ace.who, p, mode, file.owner);
      assert Lets(base, d.ace.who, p);
    }
  }

  /** The requester for whom the bound fails: the one who is nobody but that principal. */
  lemma {:induction false} BoundFails(base: Acl, six: Acl, mode: Mode, owner: nat, who: Who, p: Perm)
    requires AllClean(base) && Withheld(who, p, mode, owner) && Lets(base, who, p)
    ensures !BoundAt(base + six, mode, File(true, owner, 0), Lone(who), p)
  {
    var file := File(true, owner, 0);
    LoneDecider(base, file, who, p);
    DeciderAppend(base, six, file, Lone(who), p);
    FirstAboutWho(base, who, p);
  }

  lemma {:induction false} FirstAboutWho(acl: Acl, who: Who, p: Perm)
    ensures FirstAbout(acl, who, p).Some? ==> FirstAbout(acl, who, p).ace.who == who
  {
    if acl != [] {
      FirstAboutWho(acl[1..], who, p);
    }
  }

  // ----- the two conditions compared -----

  /** An own deny for user 2 comes first, so it does no harm that the deny of user 1 is reused for user 2. */
  const SHIELDED: Acl := [Ace(User(2), Deny, NO_FLAGS, {WriteData})] + FOREIGN

  lemma {:induction false} ForeignDenyShielded()
    ensures !OwnDenies(None, SHIELDED, NO_ACCESS, 0) && NothingEscapes(SHIELDED, NO_ACCESS, 0)
    ensures !NothingEscapes(FOREIGN, NO_ACCESS, 0)
  {
    var own, d, a := SHIELDED[0], FOREIGN[0], FOREIGN[1];
    assert SHIELDED[1..] == FOREIGN && FOREIGN[1..] == [a] && [a][1..] == [];
    assert ModeBits(NO_ACCESS.group) == {} && ModeBits(NO_ACCESS.user) == {};
    assert !PairOk(Some(d), a, NO_ACCESS, 0) by { assert WriteData in Missing(a, NO_ACCESS, 0); }
    assert !OwnDenies(Some(d), [a], NO_ACCESS, 0);
    assert !OwnDenies(Some(own), FOREIGN, NO_ACCESS, 0);
    assert Withheld(User(2), WriteData, NO_ACCESS, 0);
    assert Escapes(Some(d), [a], User(2), WriteData);
    assert Escapes(None, FOREIGN, User(2), WriteData);
    forall who: Who, p: Perm | Withheld(who, p, NO_ACCESS, 0) ensures !Escapes(None, SHIELDED, who, p) {
      assert !Escapes(Some(a), [], who, p);
      assert who != User(2) || p != WriteData ==> !Escapes(Some(d), [a], who, p);
      assert who != User(2) || p != WriteData ==> !Escapes(Some(own), FOREIGN, who, p);
    }
  }
}
