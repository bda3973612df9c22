/**
 What chmod leaves to named users and groups: which entry about them decides a mode bit afterwards.
 */
module AclChmodNamed {
  import opened AclModel
  import opened AclChmodMode
  import opened AclChmodAccess
  import opened AclChmodGroupmask

  // ----- the entries that keep a bit -----

  /** A bit that the mode lets the principal have: its class has it and, for a group, the owner has it too. */
  predicate Permitted(who: Who, p: Perm, mode: Mode, owner: nat) {
    && Named(who) && p in RWXA && p in ModeBits(ClassRwx(who, mode, owner))
    && (who.Group? ==> p in ModeBits(mode.user))
  }

  /** A bit that a group may not have only because the owner does not have it. */
  predicate Stripped(who: Who, p: Perm, mode: Mode) {
    who.Group? && p in ExtraBits(mode)
  }

  /** The walk will take this entry, a deny, for the one that belongs to the next entry. */
  predicate ReusedFor(a: Ace, rest: Acl) {
    rest != [] && Effective(rest[0]) && !NeedsSplit(rest[0]) && WouldReuse(a, rest[0])
  }

  /** After the walk in groupmask mode the entry still mentions the bit, which the mode does not withhold: a deny
      that is reused does not, and no allow entry of a group does if the owner lacks the bit. */
  predicate Keeps(a: Ace, rest: Acl, p: Perm, stripped: bool) {
    p in a.mask && !ReusedFor(a, rest) && !(a.typ == Allow && stripped)
  }

  /** The first entry in force about a principal that keeps the bit. */
  function FirstKept(acl: Acl, who: Who, p: Perm, stripped: bool): Held {
    if acl == [] then None
    else if acl[0].who == who && !acl[0].flags.inheritOnly && Keeps(acl[0], acl[1..], p, stripped) then Some(acl[0])
    else FirstKept(acl[1..], who, p, stripped)
  }

  /** The two entries speak for or against, or there is neither. */
  predicate SameSay(a: Held, b: Held) {
    a.Some? == b.Some? && (a.Some? ==> a.ace.typ == b.ace.typ)
  }

  // ----- the walk in groupmask mode -----

  predicate HeldKeeps(held: Held, rest: Acl, who: Who, p: Perm, stripped: bool) {
    held.Some? && held.ace.who == who && !held.ace.flags.inheritOnly && Keeps(held.ace, rest, p, stripped)
  }

  function HeldOrKept(held: Held, rest: Acl, who: Who, p: Perm, stripped: bool): Held {
    if HeldKeeps(held, rest, who, p, stripped) then held else FirstKept(rest, who, p, stripped)
  }

  /** Neither the deny in front of an allow entry nor a reused one speaks about bits that the mode does not withhold. */
  lemma DenySilent(held: Held, a: Ace, who: Who, p: Perm, mode: Mode, owner: nat)
    requires Effective(a) && !NeedsSplit(a) && (Permitted(who, p, mode, owner) || Stripped(who, p, mode))
    ensures var deny, allow := DenyFor(held, a, mode, owner), AllowAfter(held, a, mode, owner);
            && !(deny.who == who && p in deny.mask)
            && (a.who == who ==> (p in allow.mask <==> p in a.mask && !Stripped(who, p, mode)))
            && allow.who == a.who && allow.typ == Allow && allow.flags == a.flags
  {
    var deny := DenyFor(held, a, mode, owner);
    assert deny.who.Group? <==> a.who.Group?;
    assert ExtraBits(mode) <= ModeBits(mode.group);
    assert deny.who == who ==> p in ModeBits(ClassRwx(deny.who, mode, owner));
  }

  lemma {:induction false} ActiveKept(rest: Acl, rest': Acl, who: Who, p: Perm, stripped: bool)
    requires rest != [] && NeedsSplit(rest[0]) && rest' == [ActiveHalf(rest[0])] + rest[1..]
    ensures SameSay(FirstKept(rest', who, p, stripped), FirstKept(rest, who, p, stripped))
  {
    assert rest'[1..] == rest[1..];
    assert ReusedFor(ActiveHalf(rest[0]), rest[1..]) <==> ReusedFor(rest[0], rest[1..]);
  }

  /** The walk has already taken the bit from an allow entry that it holds. */
  predicate HeldStripped(held: Held, who: Who, p: Perm, stripped: bool) {
    held.Some? && held.ace.who == who && !held.ace.flags.inheritOnly && held.ace.typ == Allow && stripped ==>
      p !in held.ace.mask
  }

  lemma {:induction false} SplitKept(held: Held, rest: Acl, tail: Acl, who: Who, p: Perm, stripped: bool)
    requires rest != [] && NeedsSplit(rest[0]) && HeldStripped(held, who, p, stripped)
    requires SameSay(FirstAbout(tail, who, p), FirstKept(rest, who, p, stripped))
    ensures SameSay(FirstAbout(Push(held, [InheritHalf(rest[0])]) + tail, who, p), HeldOrKept(held, rest, who, p, stripped))
  {
    PushThen(held, InheritHalf(rest[0]), tail);
    FirstOfPush(held, [InheritHalf(rest[0])] + tail, who, p);
    FirstOfPush(Some(InheritHalf(rest[0])), tail, who, p);
  }

  lemma {:induction false} QuietKept(held: Held, rest: Acl, tail: Acl, who: Who, p: Perm, stripped: bool)
    requires rest != [] && !NeedsSplit(rest[0]) && Named(who) && HeldStripped(held, who, p, stripped)
    requires Skipped(rest[0]) || !NeedsDeny(rest[0], Groupmask)
    requires SameSay(FirstAbout(tail, who, p),
                     HeldOrKept(Some(if Skipped(rest[0]) then rest[0] else Cleared(rest[0])), rest[1..], who, p, stripped))
    ensures SameSay(FirstAbout(Push(held, []) + tail, who, p), HeldOrKept(held, rest, who, p, stripped))
  {
    FirstAppend(Push(held, []), tail, who, p);
    FirstOfPush(held, [], who, p);
  }

  /** An allow entry keeps the bits that it mentions, unless they are stripped from it. */
  lemma {:induction false} AllowKeeps(held: Held, rest: Acl, who: Who, p: Perm, mode: Mode, owner: nat)
    requires rest != [] && Effective(rest[0]) && !NeedsSplit(rest[0])
    requires Permitted(who, p, mode, owner) || Stripped(who, p, mode)
    ensures SameSay(HeldOrKept(Some(AllowAfter(held, rest[0], mode, owner)), rest[1..], who, p, Stripped(who, p, mode)),
                    FirstKept(rest, who, p, Stripped(who, p, mode)))
  {
    DenySilent(held, rest[0], who, p, mode, owner);
  }

  lemma {:induction false} ReuseKept(held: Held, rest: Acl, tail: Acl, who: Who, p: Perm, mode: Mode, owner: nat)
    requires rest != [] && Effective(rest[0]) && !NeedsSplit(rest[0]) && Reuses(held, rest[0])
    requires Permitted(who, p, mode, owner) || Stripped(who, p, mode)
    requires SameSay(FirstAbout(tail, who, p), FirstKept(rest, who, p, Stripped(who, p, mode)))
    ensures SameSay(FirstAbout([DenyFor(held, rest[0], mode, owner)] + tail, who, p),
                    HeldOrKept(held, rest, who, p, Stripped(who, p, mode)))
  {
    FirstOfPush(Some(DenyFor(held, rest[0], mode, owner)), tail, who, p);
    DenySilent(held, rest[0], who, p, mode, owner);
    assert ReusedFor(held.ace, rest);
  }

  lemma {:induction false} NewDenyKept(held: Held, rest: Acl, tail: Acl, who: Who, p: Perm, mode: Mode, owner: nat)
    requires rest != [] && Effective(rest[0]) && !NeedsSplit(rest[0]) && !Reuses(held, rest[0])
    requires Permitted(who, p, mode, owner) || Stripped(who, p, mode)
    requires (held.Some? ==> !NeedsSplit(held.ace)) && HeldStripped(held, who, p, Stripped(who, p, mode))
    requires SameSay(FirstAbout(tail, who, p), FirstKept(rest, who, p, Stripped(who, p, mode)))
    ensures SameSay(FirstAbout(Push(held, [DenyFor(held, rest[0], mode, owner)]) + tail, who, p),
                    HeldOrKept(held, rest, who, p, Stripped(who, p, mode)))
  {
    var deny := DenyFor(held, rest[0], mode, owner);
    PushThen(held, deny, tail);
    FirstOfPush(held, [deny] + tail, who, p);
    FirstOfPush(Some(deny), tail, who, p);
    DenySilent(held, rest[0], who, p, mode, owner);
    assert held.Some? ==> !ReusedFor(held.ace, rest);
  }

  lemma {:induction false} DenyKept(held: Held, rest: Acl, tail: Acl, who: Who, p: Perm, mode: Mode, owner: nat)
    requires rest != [] && Effective(rest[0]) && !NeedsSplit(rest[0])
    requires Permitted(who, p, mode, owner) || Stripped(who, p, mode)
    requires (held.Some? ==> !NeedsSplit(held.ace)) && HeldStripped(held, who, p, Stripped(who, p, mode))
    requires SameSay(FirstAbout(tail, who, p),
                     HeldOrKept(Some(AllowAfter(held, rest[0], mode, owner)), rest[1..], who, p, Stripped(who, p, mode)))
    ensures SameSay(FirstAbout(Front(held, rest[0], Groupmask, mode, owner) + tail, who, p),
                    HeldOrKept(held, rest, who, p, Stripped(who, p, mode)))
  {
    AllowKeeps(held, rest, who, p, mode, owner);
    if Reuses(held, rest[0]) {
      ReuseKept(held, rest, tail, who, p, mode, owner);
    } else {
      NewDenyKept(held, rest, tail, who, p, mode, owner);
    }
  }

  lemma NextStripped(held: Held, a: Ace, who: Who, p: Perm, mode: Mode, owner: nat)
    requires !NeedsSplit(a) && (Permitted(who, p, mode, owner) || Stripped(who, p, mode))
    ensures HeldStripped(NextHeld(held, a, Groupmask, mode, owner), who, p, Stripped(who, p, mode))
  {
    if Effective(a) {
      DenySilent(held, a, who, p, mode, owner);
    }
  }

  /** After the walk in groupmask mode, the first entry in force about a principal and a bit that the mode does not
      withhold is the first one of the old list that keeps the bit. */
  lemma {:induction false} RewriteKept(held: Held, rest: Acl, who: Who, p: Perm, mode: Mode, owner: nat)
    requires Permitted(who, p, mode, owner) || Stripped(who, p, mode)
    requires (held.Some? ==> !NeedsSplit(held.ace)) && HeldStripped(held, who, p, Stripped(who, p, mode))
    ensures SameSay(FirstAbout(Rewrite(held, rest, Groupmask, mode, owner), who, p),
                    HeldOrKept(held, rest, who, p, Stripped(who, p, mode)))
    decreases |rest|, rest != [] && NeedsSplit(rest[0])
  {
    var stripped := Stripped(who, p, mode);
    if rest == [] {
      FirstOfPush(held, [], who, p);
    } else if NeedsSplit(rest[0]) {
      var rest' := [ActiveHalf(rest[0])] + rest[1..];
      assert rest'[1..] == rest[1..];
      RewriteKept(None, rest', who, p, mode, owner);
      ActiveKept(rest, rest', who, p, stripped);
      SplitKept(held, rest, Rewrite(None, rest', Groupmask, mode, owner), who, p, stripped);
    } else {
      var next := NextHeld(held, rest[0], Groupmask, mode, owner);
      NextStripped(held, rest[0], who, p, mode, owner);
      RewriteKept(next, rest[1..], who, p, mode, owner);
      if Skipped(rest[0]) || !NeedsDeny(rest[0], Groupmask) {
        QuietKept(held, rest, Rewrite(next, rest[1..], Groupmask, mode, owner), who, p, stripped);
      } else {
        DenyKept(held, rest, Rewrite(next, rest[1..], Groupmask, mode, owner), who, p, mode, owner);
      }
    }
  }

  // ----- the walk in passthrough mode -----

  function HeldOrFirst(held: Held, rest: Acl, who: Who, p: Perm): Held {
    if held.Some? && held.ace.who == who && !held.ace.flags.inheritOnly && p in held.ace.mask then held
    else FirstAbout(rest, who, p)
  }

  lemma {:induction false} SplitPasses(held: Held, rest: Acl, tail: Acl, who: Who, p: Perm)
    requires rest != [] && NeedsSplit(rest[0])
    requires SameSay(FirstAbout(tail, who, p), FirstAbout([ActiveHalf(rest[0])] + rest[1..], who, p))
    ensures SameSay(FirstAbout(Push(held, [InheritHalf(rest[0])]) + tail, who, p), HeldOrFirst(held, rest, who, p))
  {
    PushThen(held, InheritHalf(rest[0]), tail);
    FirstOfPush(held, [InheritHalf(rest[0])] + tail, who, p);
    FirstOfPush(Some(InheritHalf(rest[0])), tail, who, p);
    FirstOfPush(Some(ActiveHalf(rest[0])), rest[1..], who, p);
  }

  lemma {:induction false} QuietPasses(held: Held, rest: Acl, tail: Acl, who: Who, p: Perm)
    requires rest != [] && Named(who)
    requires SameSay(FirstAbout(tail, who, p),
                     HeldOrFirst(Some(if Skipped(rest[0]) then rest[0] else Cleared(rest[0])), rest[1..], who, p))
    ensures SameSay(FirstAbout(Push(held, []) + tail, who, p), HeldOrFirst(held, rest, who, p))
  {
    FirstAppend(Push(held, []), tail, who, p);
    FirstOfPush(held, [], who, p);
  }

  /** In passthrough mode the walk leaves what is said about named principals as it is, whatever the bit. */
  lemma {:induction false} RewritePasses(held: Held, rest: Acl, who: Who, p: Perm, mode: Mode, owner: nat)
    requires Named(who)
    ensures SameSay(FirstAbout(Rewrite(held, rest, Passthrough, mode, owner), who, p), HeldOrFirst(held, rest, who, p))
    decreases |rest|, rest != [] && NeedsSplit(rest[0])
  {
    if rest == [] {
      FirstOfPush(held, [], who, p);
    } else if NeedsSplit(rest[0]) {
      var rest' := [ActiveHalf(rest[0])] + rest[1..];
      assert rest'[1..] == rest[1..];
      RewritePasses(None, rest', who, p, mode, owner);
      SplitPasses(held, rest, Rewrite(None, rest', Passthrough, mode, owner), who, p);
    } else {
      var next := NextHeld(held, rest[0], Passthrough, mode, owner);
      RewritePasses(next, rest[1..], who, p, mode, owner);
      QuietPasses(held, rest, Rewrite(next, rest[1..], Passthrough, mode, owner), who, p);
    }
  }

  // ----- chmod -----

  /** The canonical six say nothing about named principals. */
  lemma {:induction false} CloseSilent(walked: Acl, tail: nat, mode: Mode, who: Who, p: Perm)
    requires Named(who)
    ensures FirstAbout(CloseWithSix(walked, tail, mode), who, p) == FirstAbout(walked, who, p)
  {
    if HasCanonicalSix(walked, tail) {
      var n := |walked| - 6;
      SixUnnamed(walked[n..], mode);
      AppendSilent(walked[..n], walked[n..], who, p);
      AppendSilent(walked[..n], FixSix(walked[n..], mode), who, p);
      assert walked[..n] + walked[n..] == walked;
    } else {
      SixUnnamed(FRESH_SIX, mode);
      AppendSilent(walked, FixSix(FRESH_SIX, mode), who, p);
    }
  }

  lemma {:induction false} AppendSilent(base: Acl, six: Acl, who: Who, p: Perm)
    requires NoneNamed(six) && Named(who)
    ensures FirstAbout(base + six, who, p) == FirstAbout(base, who, p)
  {
    FirstAppend(base, six, who, p);
    FirstUnnamed(six, who, p);
  }

  /** In groupmask mode chmod decides a bit that the mode does not withhold by the first entry of the old list, in
      force and about the principal, that keeps it. */
  lemma {:induction false} GroupmaskKeeps(acl: Acl, last: nat, who: Who, p: Perm, mode: Mode, owner: nat)
    requires Permitted(who, p, mode, owner) || Stripped(who, p, mode)
    ensures SameSay(FirstAbout(Chmod(acl, last, Groupmask, mode, owner), who, p),
                    FirstKept(acl, who, p, Stripped(who, p, mode)))
  {
    var walked, tail := Rewrite(None, acl, Groupmask, mode, owner), TailCount(None, acl, last, Groupmask, mode, owner);
    RewriteKept(None, acl, who, p, mode, owner);
    CloseSilent(walked, tail, mode, who, p);
  }

  /** The old list's first word about a permitted bit is taken back exactly when it is a deny that gets reused, and
      what is kept behind it says otherwise. */
  predicate TakenBack(acl: Acl, who: Who, p: Perm) {
    acl != [] &&
    if acl[0].who == who && !acl[0].flags.inheritOnly && p in acl[0].mask then
      ReusedFor(acl[0], acl[1..]) && !SameSay(Some(acl[0]), FirstKept(acl[1..], who, p, false))
    else TakenBack(acl[1..], who, p)
  }

  lemma {:induction false} KeptUnlessTakenBack(acl: Acl, who: Who, p: Perm)
    ensures SameSay(FirstKept(acl, who, p, false), FirstAbout(acl, who, p)) <==> !TakenBack(acl, who, p)
  {
    if acl != [] {
      var a, speaks := acl[0], acl[0].who == who && !acl[0].flags.inheritOnly && p in acl[0].mask;
      if !speaks {
        KeptUnlessTakenBack(acl[1..], who, p);
      } else {
        assert FirstAbout(acl, who, p) == Some(a);
        assert Keeps(a, acl[1..], p, false) <==> !ReusedFor(a, acl[1..]);
      }
    }
  }

  lemma {:induction false} OnlyDeniesTakenBack(acl: Acl, who: Who, p: Perm)
    requires TakenBack(acl, who, p)
    ensures FirstAbout(acl, who, p).Some? && FirstAbout(acl, who, p).ace.typ == Deny
  {
    if !(acl[0].who == who && !acl[0].flags.inheritOnly && p in acl[0].mask) {
      OnlyDeniesTakenBack(acl[1..], who, p);
    }
  }

  /** Chmod in groupmask mode keeps what the old list says first about a permitted bit, except a deny that is taken
      back. In particular it keeps what is allowed. */
  lemma {:induction false} PermittedKept(acl: Acl, last: nat, who: Who, p: Perm, mode: Mode, owner: nat)
    requires Permitted(who, p, mode, owner)
    ensures SameSay(FirstAbout(Chmod(acl, last, Groupmask, mode, owner), who, p), FirstAbout(acl, who, p)) <==>
            !TakenBack(acl, who, p)
    ensures Lets(acl, who, p) ==> Lets(Chmod(acl, last, Groupmask, mode, owner), who, p)
  {
    GroupmaskKeeps(acl, last, who, p, mode, owner);
    KeptUnlessTakenBack(acl, who, p);
    if TakenBack(acl, who, p) {
      OnlyDeniesTakenBack(acl, who, p);
    }
  }

  /** For a requester who is nobody but this principal, on a directory: the first entry that keeps the bit grants or
      denies it. */
  lemma {:induction false} PermittedAccess(acl: Acl, last: nat, who: Who, p: Perm, mode: Mode, file: File)
    requires AllowDeny(acl) && who != User(CREATOR_OWNER_UID) && file.isDir && Permitted(who, p, mode, file.owner)
    ensures var d := FirstKept(acl, who, p, false);
            d.Some? ==> Decide(Chmod(acl, last, Groupmask, mode, file.owner), file, Lone(who), p) ==
                        if d.ace.typ == Deny then Denied else Granted
  {
    var walked := Rewrite(None, acl, Groupmask, mode, file.owner);
    RewriteKept(None, acl, who, p, mode, file.owner);
    RewriteClean(None, acl, Groupmask, mode, file.owner);
    var n, six := CloseParts(walked, TailCount(None, acl, last, Groupmask, mode, file.owner), mode);
    PrefixAbout(walked, n, who, p);
    LoneDecider(walked[..n], file, who, p);
    if FirstKept(acl, who, p, false).Some? {
      DeciderAppend(walked[..n], six, file, Lone(who), p);
      DeciderApplies(walked[..n] + six, file, Lone(who), p);
    }
  }

  lemma {:induction false} PrefixAbout(acl: Acl, n: nat, who: Who, p: Perm)
    requires n <= |acl| && NoneNamed(acl[n..]) && Named(who)
    ensures FirstAbout(acl[..n], who, p) == FirstAbout(acl, who, p)
  {
    AppendSilent(acl[..n], acl[n..], who, p);
    assert acl[..n] + acl[n..] == acl;
  }

  const SHARED: Mode := Mode(0, Rwx(true, true, false), Rwx(true, true, false), Rwx(false, false, false))

  /** User 1 is first denied and then allowed to read. */
  const OWN_DENY: Acl := [Ace(User(1), Deny, NO_FLAGS, {ReadData}), Ace(User(1), Allow, NO_FLAGS, {ReadData})]

  /** Under mode 0660 the deny is reused for the allow entry and taken back, so that chmod lets user 1 read. */
  lemma DenyTakenBack()
    ensures TakenBack(OWN_DENY, User(1), ReadData) && !Lets(OWN_DENY, User(1), ReadData)
    ensures Lets(ChmodStored(OWN_DENY, Groupmask, SHARED, 0), User(1), ReadData)
  {
    var d, a := OWN_DENY[0], OWN_DENY[1];
    assert OWN_DENY[1..] == [a] && [a][1..] == [];
    assert FirstKept([a], User(1), ReadData, false) == Some(a);
    assert ReusedFor(d, [a]);
    GroupmaskKeeps(OWN_DENY, 2, User(1), ReadData, SHARED, 0);
  }

  lemma {:induction false} StrippedNeverKept(acl: Acl, who: Who, p: Perm)
    ensures var d := FirstKept(acl, who, p, true); d.Some? ==> d.ace.typ != Allow
  {
    if acl != [] {
      StrippedNeverKept(acl[1..], who, p);
    }
  }

  /** A group never gets what the owner lacks. */
  lemma {:induction false} StrippedGone(acl: Acl, last: nat, who: Who, p: Perm, mode: Mode, owner: nat)
    requires Stripped(who, p, mode)
    ensures !Lets(Chmod(acl, last, Groupmask, mode, owner), who, p)
  {
    GroupmaskKeeps(acl, last, who, p, mode, owner);
    StrippedNeverKept(acl, who, p);
  }

  /** In passthrough mode chmod leaves what is said about named principals as it is. */
  lemma {:induction false} PassthroughKeeps(acl: Acl, last: nat, who: Who, p: Perm, mode: Mode, owner: nat)
    requires Named(who)
    ensures SameSay(FirstAbout(Chmod(acl, last, Passthrough, mode, owner), who, p), FirstAbout(acl, who, p))
  {
    var walked, tail := Rewrite(None, acl, Passthrough, mode, owner), TailCount(None, acl, last, Passthrough, mode, owner);
    RewritePasses(None, acl, who, p, mode, owner);
    CloseSilent(walked, tail, mode, who, p);
  }
}
