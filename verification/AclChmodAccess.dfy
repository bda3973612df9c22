/**
 chmod and access: what chmod must not change, and what it guarantees about the bits it rules.
 */
module AclChmodAccess {
  import opened AclModel
  import opened AclChmodMode

  // ----- bits outside read, write, append and execute -----

  lemma {:induction false} DecideAppend(a: Acl, b: Acl, file: File, cred: Cred, p: Perm)
    ensures Decide(a + b, file, cred, p) ==
            if Decide(a, file, cred, p) == Undecided then Decide(b, file, cred, p) else Decide(a, file, cred, p)
  {
    if a == [] {
      assert a + b == b;
    } else {
      DecideAppend(a[1..], b, file, cred, p);
      assert (a + b)[1..] == a[1..] + b;
    }
  }

  /** Two entries decide the bit alike for everybody. */
  predicate Alike(a: Ace, b: Ace, p: Perm) {
    a.who == b.who && a.typ == b.typ && a.flags.inheritOnly == b.flags.inheritOnly && (p in a.mask <==> p in b.mask)
  }

  lemma {:induction false} PushAppend(orig: Held, rest: Acl, file: File, cred: Cred, p: Perm)
    ensures var first := Decide(Push(orig, []), file, cred, p);
            Decide(Push(orig, rest), file, cred, p) == if first == Undecided then Decide(rest, file, cred, p) else first
  {
    DecideAppend(Push(orig, []), rest, file, cred, p);
    assert Push(orig, []) + rest == Push(orig, rest);
  }

  /** The walk does not change who decides a bit outside its remit. */
  lemma {:induction false} RewritePreserves(held: Held, orig: Held, rest: Acl, aclmode: AclMode, mode: Mode, owner: nat,
                                            file: File, cred: Cred, p: Perm)
    requires p !in RWXA && (held.Some? <==> orig.Some?) && (held.Some? ==> Alike(held.ace, orig.ace, p))
    ensures Decide(Rewrite(held, rest, aclmode, mode, owner), file, cred, p) == Decide(Push(orig, rest), file, cred, p)
    decreases |rest|, rest != [] && NeedsSplit(rest[0])
  {
    if rest != [] {
      var a, front := rest[0], Front(held, rest[0], aclmode, mode, owner);
      assert rest == [a] + rest[1..];
      if NeedsSplit(a) {
        var rest' := [ActiveHalf(a)] + rest[1..];
        RewritePreserves(None, None, rest', aclmode, mode, owner, file, cred, p);
        DecideAppend(front, Rewrite(None, rest', aclmode, mode, owner), file, cred, p);
        SplitAlike(held, orig, a, rest[1..], file, cred, p);
      } else {
        var next := NextHeld(held, a, aclmode, mode, owner);
        FrontAlike(held, orig, a, aclmode, mode, owner, file, cred, p);
        RewritePreserves(next, Some(a), rest[1..], aclmode, mode, owner, file, cred, p);
        DecideAppend(front, Rewrite(next, rest[1..], aclmode, mode, owner), file, cred, p);
        PushAppend(orig, rest, file, cred, p);
      }
    }
  }

  lemma {:induction false} FrontAlike(held: Held, orig: Held, a: Ace, aclmode: AclMode, mode: Mode, owner: nat,
                                      file: File, cred: Cred, p: Perm)
    requires p !in RWXA && (held.Some? <==> orig.Some?) && (held.Some? ==> Alike(held.ace, orig.ace, p))
    requires !NeedsSplit(a)
    ensures Decide(Front(held, a, aclmode, mode, owner), file, cred, p) == Decide(Push(orig, []), file, cred, p)
    ensures Alike(NextHeld(held, a, aclmode, mode, owner).ace, a, p)
  {
    if !Skipped(a) && NeedsDeny(a, aclmode) {
      DenyOutside(held, a, mode, owner, p);
      var deny := DenyFor(held, a, mode, owner);
      assert Decide([deny][1..], file, cred, p) == Undecided;
      assert held.Some? ==> Push(held, [deny])[1..] == [deny];
    }
  }

  lemma DenyOutside(held: Held, a: Ace, mode: Mode, owner: nat, p: Perm)
    requires p !in RWXA
    ensures p in DenyFor(held, a, mode, owner).mask <==> Reuses(held, a) && p in held.ace.mask
    ensures p in AllowAfter(held, a, mode, owner).mask <==> p in a.mask
  {
    assert p !in ModeBits(mode.group) && p !in ModeBits(mode.user);
  }

  /** The inherit-only half of a split entry comes first, but it decides the bit as the active half does. */
  lemma {:induction false} SplitAlike(held: Held, orig: Held, a: Ace, rest: Acl, file: File, cred: Cred, p: Perm)
    requires (held.Some? <==> orig.Some?) && (held.Some? ==> Alike(held.ace, orig.ace, p)) && NeedsSplit(a)
    ensures var front := Push(held, [InheritHalf(a)]);
            (if Decide(front, file, cred, p) == Undecided then Decide([ActiveHalf(a)] + rest, file, cred, p)
             else Decide(front, file, cred, p)) == Decide(Push(orig, [a] + rest), file, cred, p)
  {
    assert ([ActiveHalf(a)] + rest)[1..] == rest && ([a] + rest)[1..] == rest;
    assert Decide([InheritHalf(a)][1..], file, cred, p) == Undecided;
  }

  lemma {:induction false} FixSixPreserves(six: Acl, mode: Mode, file: File, cred: Cred, p: Perm)
    requires |six| == 6 && p !in RWXA
    ensures Decide(FixSix(six, mode), file, cred, p) == Decide(six, file, cred, p)
  {
    var f := FixSix(six, mode);
    AdjustAlike(six[0], mode.user, p);
    AdjustAlike(six[1], mode.user, p);
    AdjustAlike(six[2], mode.group, p);
    AdjustAlike(six[3], mode.group, p);
    AdjustAlike(six[4], mode.other, p);
    AdjustAlike(six[5], mode.other, p);
    AlikeDecide(f, six, 0, file, cred, p);
    assert f[0..] == f && six[0..] == six;
  }

  lemma AdjustAlike(a: Ace, c: Rwx, p: Perm)
    requires p !in RWXA
    ensures Alike(AdjustDeny(a, c), a, p) && Alike(AdjustAllow(a, c), a, p)
  {
    assert p !in ModeBits(c);
  }

  lemma {:induction false} AlikeDecide(f: Acl, g: Acl, i: nat, file: File, cred: Cred, p: Perm)
    requires |f| == |g| && i <= |f| && forall j :: 0 <= j < |f| ==> Alike(f[j], g[j], p)
    ensures Decide(f[i..], file, cred, p) == Decide(g[i..], file, cred, p)
    decreases |f| - i
  {
    if i < |f| {
      AlikeDecide(f, g, i + 1, file, cred, p);
      assert f[i..][1..] == f[i + 1..] && g[i..][1..] == g[i + 1..];
    }
  }

  /** Outside discard mode, a bit that is none of chmod's business is decided as before. A bit that nothing decided
      stays undecided if the canonical six are reused; otherwise the fresh six decide it. */
  lemma {:induction false} ChmodPreserves(acl: Acl, last: nat, aclmode: AclMode, mode: Mode, owner: nat, file: File,
                                          cred: Cred, p: Perm)
    requires aclmode != Discard && p !in RWXA
    ensures Decide(Chmod(acl, last, aclmode, mode, owner), file, cred, p) ==
            if Decide(acl, file, cred, p) == Undecided && !ReusesSix(acl, last, aclmode, mode, owner)
            then Decide(FRESH_SIX, file, cred, p) else Decide(acl, file, cred, p)
  {
    RewritePreserves(None, None, acl, aclmode, mode, owner, file, cred, p);
    ClosePreserves(Rewrite(None, acl, aclmode, mode, owner), TailCount(None, acl, last, aclmode, mode, owner), mode,
                   file, cred, p);
  }

  lemma {:induction false} ClosePreserves(walked: Acl, tail: nat, mode: Mode, file: File, cred: Cred, p: Perm)
    requires p !in RWXA
    ensures Decide(CloseWithSix(walked, tail, mode), file, cred, p) ==
            if Decide(walked, file, cred, p) == Undecided && !HasCanonicalSix(walked, tail)
            then Decide(FRESH_SIX, file, cred, p) else Decide(walked, file, cred, p)
  {
    if HasCanonicalSix(walked, tail) {
      var n := |walked| - 6;
      FixedAppend(walked[..n], walked[n..], mode, file, cred, p);
      assert walked[..n] + walked[n..] == walked;
    } else {
      FixedAppend(walked, FRESH_SIX, mode, file, cred, p);
      DecideAppend(walked, FRESH_SIX, file, cred, p);
    }
  }

  lemma {:induction false} FixedAppend(base: Acl, six: Acl, mode: Mode, file: File, cred: Cred, p: Perm)
    requires |six| == 6 && p !in RWXA
    ensures Decide(base + FixSix(six, mode), file, cred, p) == Decide(base + six, file, cred, p)
  {
    FixSixPreserves(six, mode, file, cred, p);
    DecideAppend(base, FixSix(six, mode), file, cred, p);
    DecideAppend(base, six, file, cred, p);
  }

  // ----- discard: the ACL says what the mode says -----

  /** The class a requester falls into: owner first, even if the owner is also in the group. */
  function ClassFor(file: File, cred: Cred): Class {
    if cred.uid == file.owner then UserClass else if file.group in cred.groups then GroupClass else OtherClass
  }

  lemma {:induction false} DecideAt(acl: Acl, i: nat, file: File, cred: Cred, p: Perm)
    requires i < |acl|
    ensures Decide(acl[i..], file, cred, p) ==
            if Applies(acl[i], file, cred) && p in acl[i].mask then (if acl[i].typ == Deny then Denied else Granted)
            else Decide(acl[i + 1..], file, cred, p)
  {
    assert acl[i..][1..] == acl[i + 1..];
  }

  lemma {:induction false} PairDecides(f: Acl, i: nat, file: File, cred: Cred, p: Perm)
    requires i + 1 < |f| && f[i].typ == Deny && f[i + 1].typ == Allow && f[i].who == f[i + 1].who
    requires InForce(f[i]) && InForce(f[i + 1]) && (p in f[i].mask <==> p !in f[i + 1].mask)
    ensures Decide(f[i..], file, cred, p) ==
            if Matches(f[i].who, file, cred) then (if p in f[i + 1].mask then Granted else Denied)
            else Decide(f[i + 2..], file, cred, p)
  {
    DecideAt(f, i, file, cred, p);
    DecideAt(f, i + 1, file, cred, p);
  }

  lemma {:induction false} ShapeDecides(f: Acl, file: File, cred: Cred, p: Perm)
    requires SixShape(f)
    requires InForce(f[0]) && InForce(f[1]) && InForce(f[2]) && InForce(f[3]) && InForce(f[4]) && InForce(f[5])
    requires (p in f[0].mask <==> p !in f[1].mask) && (p in f[2].mask <==> p !in f[3].mask)
    requires p in f[4].mask <==> p !in f[5].mask
    ensures Decide(f, file, cred, p) ==
            match ClassFor(file, cred)
            case UserClass => if p in f[1].mask then Granted else Denied
            case GroupClass => if p in f[3].mask then Granted else Denied
            case OtherClass => if p in f[5].mask then Granted else Denied
  {
    PairDecides(f, 4, file, cred, p);
    PairDecides(f, 2, file, cred, p);
    PairDecides(f, 0, file, cred, p);
    assert f[0..] == f;
  }

  /** In discard mode every requester gets exactly the bits of its Unix class. */
  lemma {:induction false} DiscardMeansMode(acl: Acl, last: nat, mode: Mode, owner: nat, file: File, cred: Cred,
                                            p: Perm)
    requires p in RWXA
    ensures Decide(Chmod(acl, last, Discard, mode, owner), file, cred, p) ==
            if p in ModeBits(ClassOf(mode, ClassFor(file, cred))) then Granted else Denied
  {
    FixedShape(FRESH_SIX, mode);
    FixedMasks(FRESH_SIX, mode, p);
    ShapeDecides(FixSix(FRESH_SIX, mode), file, cred, p);
  }

  /** Hence a request for a set of such bits succeeds exactly when the set lies in the class bits. */
  lemma {:induction false} DiscardGrants(acl: Acl, last: nat, mode: Mode, owner: nat, file: File, cred: Cred,
                                         want: Mask)
    requires want <= RWXA
    ensures (forall p :: p in want ==> Decide(Chmod(acl, last, Discard, mode, owner), file, cred, p) == Granted) <==>
            want <= ModeBits(ClassOf(mode, ClassFor(file, cred)))
  {
    forall p | p in want
      ensures Decide(Chmod(acl, last, Discard, mode, owner), file, cred, p) == Granted <==>
              p in ModeBits(ClassOf(mode, ClassFor(file, cred)))
    {
      DiscardMeansMode(acl, last, mode, owner, file, cred, p);
    }
  }

  // ----- groupmask: named entries stay within the group bits -----

  /** The entry that decides a bit for a requester. */
  function Decider(acl: Acl, file: File, cred: Cred, p: Perm): Held {
    if acl == [] then None
    else if Applies(acl[0], file, cred) && p in acl[0].mask then Some(acl[0])
    else Decider(acl[1..], file, cred, p)
  }

  predicate Effective(a: Ace) {
    Named(a.who) && a.typ == Allow && !a.flags.inheritOnly
  }

  /** What the mode does not let a named allow entry grant. */
  function Missing(a: Ace, mode: Mode, owner: nat): Mask {
    a.mask * RWXA - ModeBits(ClassRwx(a.who, mode, owner))
  }

  /** The entry right before a named allow entry denies its principal what the mode leaves out. */
  predicate GuardedBy(prev: Held, a: Ace, mode: Mode, owner: nat) {
    Effective(a) && Missing(a, mode, owner) != {} ==>
      && prev.Some? && prev.ace.typ == Deny && prev.ace.who == a.who && !prev.ace.flags.inheritOnly
      && Missing(a, mode, owner) <= prev.ace.mask
  }

  predicate Guarded(prev: Held, acl: Acl, mode: Mode, owner: nat)
    decreases |acl|
  {
    acl == [] || (GuardedBy(prev, acl[0], mode, owner) && Guarded(Some(acl[0]), acl[1..], mode, owner))
  }

  /** In a guarded list no named entry grants what the mode leaves out, to anybody. */
  lemma {:induction false} GuardedGrants(prev: Held, acl: Acl, mode: Mode, owner: nat, file: File, cred: Cred, p: Perm)
    requires Guarded(prev, acl, mode, owner) && p in RWXA
    requires prev.Some? && Applies(prev.ace, file, cred) ==> p !in prev.ace.mask
    ensures var d := Decider(acl, file, cred, p);
            d.Some? && Named(d.ace.who) && d.ace.typ == Allow && !d.ace.flags.inheritOnly ==>
              p in ModeBits(ClassRwx(d.ace.who, mode, owner))
    decreases |acl|
  {
    if acl != [] {
      if Applies(acl[0], file, cred) && p in acl[0].mask {
        assert p in ModeBits(ClassRwx(acl[0].who, mode, owner)) || p in Missing(acl[0], mode, owner);
      } else {
        GuardedGrants(Some(acl[0]), acl[1..], mode, owner, file, cred, p);
      }
    }
  }

  function LastOf(prev: Held, acl: Acl): Held {
    if acl == [] then prev else Some(acl[|acl| - 1])
  }

  lemma {:induction false} GuardedAppend(prev: Held, a: Acl, b: Acl, mode: Mode, owner: nat)
    ensures Guarded(prev, a + b, mode, owner) <==> Guarded(prev, a, mode, owner) && Guarded(LastOf(prev, a), b, mode, owner)
    decreases |a|
  {
    if a == [] {
      assert a + b == b;
    } else {
      GuardedAppend(Some(a[0]), a[1..], b, mode, owner);
      assert (a + b)[1..] == a[1..] + b;
    }
  }

  // ----- exactly when chmod guards every named entry -----

  /** Would the walk, coming to `a` right after `d`, take `d` for the deny that belongs to `a`? */
  predicate WouldReuse(d: Ace, a: Ace) {
    !Skipped(d) && CanReuse(if NeedsSplit(d) then ActiveHalf(d) else d, a)
  }

  /** A deny that will be reused for an allow entry must name the same principal, unless there is nothing to deny. */
  predicate PairOk(prev: Held, a: Ace, mode: Mode, owner: nat) {
    Effective(a) && !NeedsSplit(a) && prev.Some? && WouldReuse(prev.ace, a) ==>
      prev.ace.who == a.who || Missing(a, mode, owner) == {}
  }

  predicate OwnDenies(prev: Held, acl: Acl, mode: Mode, owner: nat)
    decreases |acl|
  {
    acl == [] || (PairOk(prev, acl[0], mode, owner) && OwnDenies(Some(acl[0]), acl[1..], mode, owner))
  }

  /** The held entry is what the walk made of the previous entry of the old list. */
  ghost predicate HeldFor(held: Held, prev: Held) {
    && (held.None? ==> prev.None?)
    && (held.Some? && Named(held.ace.who) && held.ace.typ == Deny && held.ace.flags == NO_FLAGS ==>
          prev.Some? && !Skipped(prev.ace) && held.ace == if NeedsSplit(prev.ace) then ActiveHalf(prev.ace) else prev.ace)
    && (prev.Some? && !Skipped(prev.ace) && prev.ace.typ == Deny && Named(prev.ace.who) ==>
          held == Some(if NeedsSplit(prev.ace) then ActiveHalf(prev.ace) else prev.ace))
  }

  lemma ReuseFor(held: Held, prev: Held, a: Ace)
    requires HeldFor(held, prev)
    ensures Reuses(held, a) <==> prev.Some? && WouldReuse(prev.ace, a)
    ensures Reuses(held, a) ==> held.ace.who == prev.ace.who
  {
  }

  lemma NextHeldFor(held: Held, a: Ace, mode: Mode, owner: nat)
    requires !NeedsSplit(a)
    ensures HeldFor(NextHeld(held, a, Groupmask, mode, owner), Some(a))
  {
  }

  ghost predicate HeldGuarded(prev: Held, held: Held, mode: Mode, owner: nat) {
    held.Some? ==> GuardedBy(prev, held.ace, mode, owner)
  }

  /** The deny in front of the entry serves it exactly when the two are about the same principal. */
  lemma DenyServes(held: Held, prev: Held, a: Ace, mode: Mode, owner: nat)
    requires HeldFor(held, prev) && !NeedsSplit(a) && !Skipped(a) && NeedsDeny(a, Groupmask)
    ensures GuardedBy(Some(DenyFor(held, a, mode, owner)), AllowAfter(held, a, mode, owner), mode, owner)
            <==> PairOk(prev, a, mode, owner)
  {
    ReuseFor(held, prev, a);
    DenyGuards(held, a, mode, owner);
  }

  /** The entry at hand comes out guarded exactly when its pair is in order. */
  lemma {:induction false} FrontGuarded(last: Held, held: Held, prev: Held, a: Ace, mode: Mode, owner: nat)
    requires HeldFor(held, prev) && !NeedsSplit(a)
    ensures var front := Front(held, a, Groupmask, mode, owner);
            Guarded(last, front, mode, owner)
              && HeldGuarded(LastOf(last, front), NextHeld(held, a, Groupmask, mode, owner), mode, owner)
            <==> HeldGuarded(last, held, mode, owner) && PairOk(prev, a, mode, owner)
  {
    ReuseFor(held, prev, a);
    var front, next := Front(held, a, Groupmask, mode, owner), NextHeld(held, a, Groupmask, mode, owner);
    if !Skipped(a) && NeedsDeny(a, Groupmask) {
      var deny := DenyFor(held, a, mode, owner);
      DenyServes(held, prev, a, mode, owner);
      DenyGuards(held, a, mode, owner);
      assert GuardedBy(last, deny, mode, owner);
      if Reuses(held, a) {
        assert front == [deny] && LastOf(last, front) == Some(deny);
        assert !Effective(held.ace);
      } else {
        assert Guarded(held, [deny], mode, owner);
        assert held.Some? ==> front[1..] == [deny];
      }
    } else {
      assert !Effective(next.ace);
    }
  }

  lemma DenyGuards(held: Held, a: Ace, mode: Mode, owner: nat)
    requires Effective(a) && !NeedsSplit(a)
    ensures var deny, allow := DenyFor(held, a, mode, owner), AllowAfter(held, a, mode, owner);
            && deny.typ == Deny && deny.flags == NO_FLAGS && Missing(allow, mode, owner) == Missing(a, mode, owner)
            && (deny.who == a.who <==> !Reuses(held, a) || held.ace.who == a.who)
            && (deny.who == a.who ==> Missing(a, mode, owner) <= deny.mask)
            && allow.who == a.who && allow.typ == Allow && allow.flags == a.flags
  {
    var deny, allow := DenyFor(held, a, mode, owner), AllowAfter(held, a, mode, owner);
    assert deny.who.Group? <==> a.who.Group?;
    assert ExtraBits(mode) <= ModeBits(mode.group);
    assert Missing(allow, mode, owner) == Missing(a, mode, owner);
  }

  lemma {:induction false} ActiveSameDenies(a: Ace, rest: Acl, mode: Mode, owner: nat)
    requires NeedsSplit(a)
    ensures OwnDenies(Some(ActiveHalf(a)), rest, mode, owner) <==> OwnDenies(Some(a), rest, mode, owner)
  {
    assert rest != [] ==> (WouldReuse(ActiveHalf(a), rest[0]) <==> WouldReuse(a, rest[0]));
  }

  lemma {:induction false} RewriteGuarded(last: Held, held: Held, prev: Held, rest: Acl, mode: Mode, owner: nat)
    requires HeldFor(held, prev)
    ensures Guarded(last, Rewrite(held, rest, Groupmask, mode, owner), mode, owner) <==>
            HeldGuarded(last, held, mode, owner) && OwnDenies(prev, rest, mode, owner)
    decreases |rest|, rest != [] && NeedsSplit(rest[0])
  {
    if rest != [] {
      var a, front := rest[0], Front(held, rest[0], Groupmask, mode, owner);
      if NeedsSplit(a) {
        var rest' := [ActiveHalf(a)] + rest[1..];
        assert rest'[1..] == rest[1..];
        GuardedAppend(last, front, Rewrite(None, rest', Groupmask, mode, owner), mode, owner);
        SplitGuarded(last, held, a, mode, owner);
        RewriteGuarded(LastOf(last, front), None, None, rest', mode, owner);
        ActiveSameDenies(a, rest[1..], mode, owner);
      } else {
        var next := NextHeld(held, a, Groupmask, mode, owner);
        GuardedAppend(last, front, Rewrite(next, rest[1..], Groupmask, mode, owner), mode, owner);
        FrontGuarded(last, held, prev, a, mode, owner);
        NextHeldFor(held, a, mode, owner);
        RewriteGuarded(LastOf(last, front), next, Some(a), rest[1..], mode, owner);
      }
    }
  }

  lemma {:induction false} SplitGuarded(last: Held, held: Held, a: Ace, mode: Mode, owner: nat)
    requires NeedsSplit(a)
    ensures Guarded(last, Push(held, [InheritHalf(a)]), mode, owner) <==> HeldGuarded(last, held, mode, owner)
  {
    assert Guarded(held, [InheritHalf(a)], mode, owner) && Guarded(last, [InheritHalf(a)], mode, owner);
    assert held.Some? ==> Push(held, [InheritHalf(a)])[1..] == [InheritHalf(a)];
  }

  predicate NoneNamed(acl: Acl) {
    acl == [] || (!Named(acl[0].who) && NoneNamed(acl[1..]))
  }

  lemma {:induction false} NoneNamedGuarded(prev: Held, acl: Acl, mode: Mode, owner: nat)
    requires NoneNamed(acl)
    ensures Guarded(prev, acl, mode, owner)
    decreases |acl|
  {
    if acl != [] {
      NoneNamedGuarded(Some(acl[0]), acl[1..], mode, owner);
    }
  }

  lemma {:induction false} NoneNamedFrom(f: Acl, i: nat)
    requires i <= |f| && forall j :: 0 <= j < |f| ==> !Named(f[j].who)
    ensures NoneNamed(f[i..])
    decreases |f| - i
  {
    if i < |f| {
      NoneNamedFrom(f, i + 1);
      assert f[i..][1..] == f[i + 1..];
    }
  }

  lemma {:induction false} ShapeUnnamed(f: Acl)
    requires SixShape(f)
    ensures NoneNamed(f)
  {
    forall j | 0 <= j < |f| ensures !Named(f[j].who) {
      ShapeAt(f, f, j);
    }
    NoneNamedFrom(f, 0);
    assert f[0..] == f;
  }

  lemma {:induction false} SixUnnamed(six: Acl, mode: Mode)
    requires IsSix(six)
    ensures NoneNamed(six) && NoneNamed(FixSix(six, mode))
  {
    OwnShape(six);
    FixedShape(six, mode);
    ShapeUnnamed(six);
    ShapeUnnamed(FixSix(six, mode));
  }

  lemma {:induction false} AppendUnnamed(prev: Held, base: Acl, f: Acl, mode: Mode, owner: nat)
    requires NoneNamed(f)
    ensures Guarded(prev, base + f, mode, owner) <==> Guarded(prev, base, mode, owner)
  {
    NoneNamedGuarded(LastOf(prev, base), f, mode, owner);
    GuardedAppend(prev, base, f, mode, owner);
  }

  lemma {:induction false} SixGuarded(prev: Held, base: Acl, six: Acl, mode: Mode, owner: nat)
    requires IsSix(six)
    ensures Guarded(prev, base + FixSix(six, mode), mode, owner) <==> Guarded(prev, base, mode, owner)
    ensures Guarded(prev, base + six, mode, owner) <==> Guarded(prev, base, mode, owner)
  {
    SixUnnamed(six, mode);
    AppendUnnamed(prev, base, FixSix(six, mode), mode, owner);
    AppendUnnamed(prev, base, six, mode, owner);
  }

  /** In groupmask mode, every named allow entry ends up behind a deny that takes away from its own principal what
      the mode leaves out, exactly when no deny of another principal is reused for it. */
  lemma {:induction false} GroupmaskGuards(acl: Acl, last: nat, mode: Mode, owner: nat)
    ensures Guarded(None, Chmod(acl, last, Groupmask, mode, owner), mode, owner) <==> OwnDenies(None, acl, mode, owner)
  {
    var walked, tail := Rewrite(None, acl, Groupmask, mode, owner), TailCount(None, acl, last, Groupmask, mode, owner);
    RewriteGuarded(None, None, None, acl, mode, owner);
    if HasCanonicalSix(walked, tail) {
      var n := |walked| - 6;
      SixGuarded(None, walked[..n], walked[n..], mode, owner);
      assert walked[..n] + walked[n..] == walked;
    } else {
      SixGuarded(None, walked, FRESH_SIX, mode, owner);
    }
  }

  /** Hence on a directory no named entry grants anybody a bit that the mode leaves out: the group bits bound named
      groups and users, the owner bits bound an entry that names the owner. */
  lemma {:induction false} GroupmaskBounds(acl: Acl, last: nat, mode: Mode, file: File, cred: Cred, p: Perm)
    requires OwnDenies(None, acl, mode, file.owner) && file.isDir && p in RWXA
    ensures var d := Decider(Chmod(acl, last, Groupmask, mode, file.owner), file, cred, p);
            d.Some? && Named(d.ace.who) && d.ace.typ == Allow ==> p in ModeBits(ClassRwx(d.ace.who, mode, file.owner))
  {
    var out := Chmod(acl, last, Groupmask, mode, file.owner);
    GroupmaskGuards(acl, last, mode, file.owner);
    GuardedGrants(None, out, mode, file.owner, file, cred, p);
    DeciderApplies(out, file, cred, p);
  }

  lemma {:induction false} DeciderApplies(acl: Acl, file: File, cred: Cred, p: Perm)
    ensures var d := Decider(acl, file, cred, p);
            && (d.Some? ==> Applies(d.ace, file, cred) && p in d.ace.mask)
            && Decide(acl, file, cred, p) ==
               if d.None? then Undecided else if d.ace.typ == Deny then Denied else Granted
  {
    if acl != [] {
      DeciderApplies(acl[1..], file, cred, p);
    }
  }

  /** If every deny directly before a named allow entry names the same principal, the condition holds. */
  predicate DeniesMatch(prev: Held, acl: Acl)
    decreases |acl|
  {
    acl == [] ||
    ((Named(acl[0].who) && acl[0].typ == Allow && prev.Some? && prev.ace.typ == Deny ==> prev.ace.who == acl[0].who)
     && DeniesMatch(Some(acl[0]), acl[1..]))
  }

  lemma {:induction false} MatchingDenies(prev: Held, acl: Acl, mode: Mode, owner: nat)
    requires DeniesMatch(prev, acl)
    ensures OwnDenies(prev, acl, mode, owner)
    decreases |acl|
  {
    if acl != [] {
      MatchingDenies(Some(acl[0]), acl[1..], mode, owner);
    }
  }

  // ----- when a foreign deny is reused -----

  /** A deny for user 1 directly before an allow for user 2. */
  const FOREIGN: Acl := [Ace(User(1), Deny, NO_FLAGS, {}), Ace(User(2), Allow, NO_FLAGS, {WriteData})]

  const NO_ACCESS: Mode := Mode(0, Rwx(false, false, false), Rwx(false, false, false), Rwx(false, false, false))

  /** What the walk makes of it: no deny for user 2 is put in. */
  lemma ForeignWalk() returns (deny: Ace, allow: Ace)
    ensures Rewrite(None, FOREIGN, Groupmask, NO_ACCESS, 0) == [deny] + [allow]
    ensures deny.who == User(1) && allow == FOREIGN[1]
  {
    var d, a := FOREIGN[0], FOREIGN[1];
    assert FOREIGN[1..] == [a] && [a][1..] == [];
    var held := Some(d);
    deny, allow := DenyFor(held, a, NO_ACCESS, 0), AllowAfter(held, a, NO_ACCESS, 0);
    assert Rewrite(Some(allow), [], Groupmask, NO_ACCESS, 0) == [allow];
    assert Rewrite(held, [a], Groupmask, NO_ACCESS, 0) == [deny] + [allow];
    assert Front(None, d, Groupmask, NO_ACCESS, 0) == [];
  }

  lemma ForeignNotOwn()
    ensures !OwnDenies(None, FOREIGN, NO_ACCESS, 0)
  {
    var d, a := FOREIGN[0], FOREIGN[1];
    assert FOREIGN[1..] == [a] && [a][1..] == [];
    assert Missing(a, NO_ACCESS, 0) == {WriteData} by { assert ModeBits(NO_ACCESS.group) == {}; }
    assert !PairOk(Some(d), a, NO_ACCESS, 0);
    assert !OwnDenies(Some(d), [a], NO_ACCESS, 0);
  }

  /** The deny is taken for the one that belongs to user 2, so the bound fails for user 2. */
  lemma ForeignDenyReused()
    ensures !OwnDenies(None, FOREIGN, NO_ACCESS, 0)
    ensures Decide(ChmodStored(FOREIGN, Groupmask, NO_ACCESS, 0), File(true, 0, 0), Cred(2, {}), WriteData) == Granted
  {
    ForeignNotOwn();
    var deny, allow := ForeignWalk();
    var walked := [deny] + [allow];
    assert ChmodStored(FOREIGN, Groupmask, NO_ACCESS, 0) == walked + FixSix(FRESH_SIX, NO_ACCESS);
    DecideAppend(walked, FixSix(FRESH_SIX, NO_ACCESS), File(true, 0, 0), Cred(2, {}), WriteData);
    DecideAppend([deny], [allow], File(true, 0, 0), Cred(2, {}), WriteData);
  }
}
