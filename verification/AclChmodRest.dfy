/**
 The rest of what chmod leaves behind: the bits that are not in the mode, and what children inherit.
 */
module AclChmodRest {
  import opened AclModel
  import opened AclChmodMode
  import opened AclChmodAccess

  // ----- the bits of a mode, and the class of a named principal -----

  predicate PermBit(c: Rwx, p: Perm) {
    match p
    case ReadData => c.r
    case WriteData => c.w
    case AppendData => c.w
    case Execute => c.x
    case _ => false
  }

  /** The owner bits bound an entry that names the owner, the group bits any other named entry. */
  lemma ClassOfNamed(who: Who, p: Perm, mode: Mode, owner: nat)
    ensures p in ModeBits(ClassRwx(who, mode, owner)) <==> PermBit(if who == User(owner) then mode.user else mode.group, p)
    ensures p in RWXA <==> PermBit(Rwx(true, true, true), p)
  {
  }

  // ----- the other bits -----

  /** What new canonical entries say about the other bits: only the owner may change the ACL, the owner and the
      attributes, everybody may read them, and nothing is said about deleting. */
  function FreshVerdict(file: File, cred: Cred, p: Perm): Verdict {
    match p
    case WriteAcl => if cred.uid == file.owner then Granted else Denied
    case WriteOwner => if cred.uid == file.owner then Granted else Denied
    case WriteAttributes => if cred.uid == file.owner then Granted else Denied
    case WriteNamedAttrs => if cred.uid == file.owner then Granted else Denied
    case ReadAcl => Granted
    case ReadAttributes => Granted
    case ReadNamedAttrs => Granted
    case Synchronize => Granted
    case _ => Undecided
  }

  lemma {:induction false} EveryoneDecides(file: File, cred: Cred, p: Perm)
    requires p !in RWXA
    ensures Decide(FRESH_SIX[4..], file, cred, p) ==
            if p in EVERYONE_DENY_MASK then Denied else if p in EVERYONE_ALLOW_MASK then Granted else Undecided
  {
    assert Decide(FRESH_SIX[6..], file, cred, p) == Undecided;
    DecideAt(FRESH_SIX, 5, file, cred, p);
    DecideAt(FRESH_SIX, 4, file, cred, p);
  }

  lemma {:induction false} OwnerDecides(file: File, cred: Cred, p: Perm)
    requires p !in RWXA
    ensures Decide(FRESH_SIX, file, cred, p) ==
            if cred.uid == file.owner && p in OWNER_ALLOW_MASK then Granted else Decide(FRESH_SIX[4..], file, cred, p)
  {
    DecideAt(FRESH_SIX, 3, file, cred, p);
    DecideAt(FRESH_SIX, 2, file, cred, p);
    DecideAt(FRESH_SIX, 1, file, cred, p);
    DecideAt(FRESH_SIX, 0, file, cred, p);
    assert FRESH_SIX[0..] == FRESH_SIX;
  }

  lemma {:induction false} FreshDecides(file: File, cred: Cred, p: Perm)
    requires p !in RWXA
    ensures Decide(FRESH_SIX, file, cred, p) == FreshVerdict(file, cred, p)
  {
    OwnerDecides(file, cred, p);
    EveryoneDecides(file, cred, p);
  }

  /** In discard mode that is all there is. */
  lemma {:induction false} DiscardOther(acl: Acl, last: nat, mode: Mode, owner: nat, file: File, cred: Cred, p: Perm)
    requires p !in RWXA
    ensures Decide(Chmod(acl, last, Discard, mode, owner), file, cred, p) == FreshVerdict(file, cred, p)
  {
    FixSixPreserves(FRESH_SIX, mode, file, cred, p);
    FreshDecides(file, cred, p);
  }

  // ----- inheritance -----

  predicate Inheritable(a: Ace) {
    a.flags.fileInherit || a.flags.dirInherit
  }

  /** What children of a directory inherit, in order; whether an entry is in force on the directory itself does not
      matter. */
  function Legacy(acl: Acl): Acl {
    if acl == [] then []
    else (if Inheritable(acl[0]) then [InheritHalf(acl[0])] else []) + Legacy(acl[1..])
  }

  lemma {:induction false} LegacyAppend(a: Acl, b: Acl)
    ensures Legacy(a + b) == Legacy(a) + Legacy(b)
  {
    if a == [] {
      assert a + b == b;
    } else {
      LegacyAppend(a[1..], b);
      assert (a + b)[1..] == a[1..] + b;
      Associate(if Inheritable(a[0]) then [InheritHalf(a[0])] else [], Legacy(a[1..]), Legacy(b));
    }
  }

  lemma {:induction false} LegacyOne(a: Ace)
    ensures Legacy([a]) == if Inheritable(a) then [InheritHalf(a)] else []
  {
    assert [a][1..] == [];
  }

  lemma {:induction false} LegacyPush(held: Held, acl: Acl)
    ensures Legacy(Push(held, acl)) == (if held.Some? then Legacy([held.ace]) else []) + Legacy(acl)
  {
    if held.Some? {
      LegacyAppend([held.ace], acl);
    }
  }

  /** What leaves the walk at an entry, and what is held afterwards, is inherited as what came. */
  lemma {:induction false} FrontLegacy(held: Held, a: Ace, aclmode: AclMode, mode: Mode, owner: nat)
    requires !NeedsSplit(a)
    ensures Legacy(Front(held, a, aclmode, mode, owner)) + Legacy([NextHeld(held, a, aclmode, mode, owner).ace]) ==
            Legacy(Push(held, [])) + Legacy([a])
  {
    var next := NextHeld(held, a, aclmode, mode, owner).ace;
    LegacyOne(a);
    LegacyOne(next);
    if Skipped(a) || !NeedsDeny(a, aclmode) {
      assert Inheritable(next) == Inheritable(a) && (Inheritable(a) ==> next == a);
    } else {
      var deny := DenyFor(held, a, mode, owner);
      LegacyOne(deny);
      LegacyPush(held, []);
      LegacyPush(if Reuses(held, a) then None else held, [deny]);
      if held.Some? {
        LegacyOne(held.ace);
      }
    }
  }

  lemma {:induction false} LegacyHead(acl: Acl)
    requires acl != []
    ensures Legacy(acl) == Legacy([acl[0]]) + Legacy(acl[1..])
  {
    LegacyAppend([acl[0]], acl[1..]);
    assert [acl[0]] + acl[1..] == acl;
  }

  /** Both sides of a turn, with the rest of the list. */
  lemma {:induction false} TurnLegacy(held: Held, rest: Acl, tail: Acl, aclmode: AclMode, mode: Mode, owner: nat)
    requires rest != [] && !NeedsSplit(rest[0])
    requires Legacy(tail) == Legacy([NextHeld(held, rest[0], aclmode, mode, owner).ace]) + Legacy(rest[1..])
    ensures Legacy(Front(held, rest[0], aclmode, mode, owner) + tail) == Legacy(Push(held, [])) + Legacy(rest)
  {
    var front, next := Front(held, rest[0], aclmode, mode, owner), NextHeld(held, rest[0], aclmode, mode, owner).ace;
    LegacyAppend(front, tail);
    LegacyHead(rest);
    FrontLegacy(held, rest[0], aclmode, mode, owner);
    Associate(Legacy(front), Legacy([next]), Legacy(rest[1..]));
    Associate(Legacy(Push(held, [])), Legacy([rest[0]]), Legacy(rest[1..]));
  }

  lemma {:induction false} SplitTurnLegacy(held: Held, rest: Acl, rest': Acl, tail: Acl)
    requires rest != [] && NeedsSplit(rest[0]) && rest' == [ActiveHalf(rest[0])] + rest[1..]
    requires Legacy(tail) == [] + Legacy(rest')
    ensures Legacy(Push(held, [InheritHalf(rest[0])]) + tail) == Legacy(Push(held, [])) + Legacy(rest)
  {
    assert [] + Legacy(rest') == Legacy(rest');
    LegacyAppend(Push(held, [InheritHalf(rest[0])]), tail);
    SplitLegacy(held, rest[0], rest[1..]);
    assert [rest[0]] + rest[1..] == rest;
  }

  /** The walk leaves what children inherit as it is. */
  lemma {:induction false} RewriteLegacy(held: Held, rest: Acl, aclmode: AclMode, mode: Mode, owner: nat)
    ensures Legacy(Rewrite(held, rest, aclmode, mode, owner)) == Legacy(Push(held, [])) + Legacy(rest)
    decreases |rest|, rest != [] && NeedsSplit(rest[0])
  {
    if rest == [] {
      assert Legacy(Push(held, [])) + [] == Legacy(Push(held, []));
    } else if NeedsSplit(rest[0]) {
      var rest' := [ActiveHalf(rest[0])] + rest[1..];
      assert rest'[1..] == rest[1..];
      RewriteLegacy(None, rest', aclmode, mode, owner);
      SplitTurnLegacy(held, rest, rest', Rewrite(None, rest', aclmode, mode, owner));
    } else {
      var next := NextHeld(held, rest[0], aclmode, mode, owner);
      RewriteLegacy(next, rest[1..], aclmode, mode, owner);
      assert Push(next, []) == [next.ace];
      TurnLegacy(held, rest, Rewrite(next, rest[1..], aclmode, mode, owner), aclmode, mode, owner);
    }
  }

  lemma Associate(a: Acl, b: Acl, c: Acl)
    ensures (a + b) + c == a + (b + c)
  {
  }

  lemma {:induction false} SplitLegacy(held: Held, a: Ace, rest: Acl)
    requires NeedsSplit(a)
    ensures Legacy(Push(held, [InheritHalf(a)])) + Legacy([ActiveHalf(a)] + rest) ==
            Legacy(Push(held, [])) + Legacy([a] + rest)
  {
    LegacyPush(held, [InheritHalf(a)]);
    LegacyPush(held, []);
    LegacyOne(InheritHalf(a));
    LegacyOne(ActiveHalf(a));
    LegacyOne(a);
    LegacyAppend([ActiveHalf(a)], rest);
    LegacyAppend([a], rest);
    assert InheritHalf(InheritHalf(a)) == InheritHalf(a);
    var before := if held.Some? then Legacy([held.ace]) else [];
    assert before + [] == before && [] + Legacy(rest) == Legacy(rest);
    Associate(before, [InheritHalf(a)], Legacy(rest));
  }

  /** The same entries, but for the mode bits of owner@, group@ and everyone@. */
  function Bare(acl: Acl): Acl {
    if acl == [] then [] else [Cleared(acl[0])] + Bare(acl[1..])
  }

  lemma {:induction false} BareAppend(a: Acl, b: Acl)
    ensures Bare(a + b) == Bare(a) + Bare(b)
  {
    if a == [] {
      assert a + b == b;
    } else {
      BareAppend(a[1..], b);
      assert (a + b)[1..] == a[1..] + b;
      Associate([Cleared(a[0])], Bare(a[1..]), Bare(b));
    }
  }

  function BareLegacy(acl: Acl): Acl {
    Bare(Legacy(acl))
  }

  lemma {:induction false} BareLegacyAppend(a: Acl, b: Acl)
    ensures BareLegacy(a + b) == BareLegacy(a) + BareLegacy(b)
  {
    LegacyAppend(a, b);
    BareAppend(Legacy(a), Legacy(b));
  }

  /** Lists whose entries differ in mode bits only. */
  lemma {:induction false} BareFrom(f: Acl, g: Acl, i: nat)
    requires |f| == |g| && i <= |f|
    requires forall j :: 0 <= j < |f| ==> f[j].flags == g[j].flags && Cleared(f[j]) == Cleared(g[j])
    ensures BareLegacy(f[i..]) == BareLegacy(g[i..])
    decreases |f| - i
  {
    if i < |f| {
      BareFrom(f, g, i + 1);
      assert f[i..][1..] == f[i + 1..] && g[i..][1..] == g[i + 1..];
      BareHead(f[i..]);
      BareHead(g[i..]);
      assert Cleared(InheritHalf(f[i])) == Cleared(InheritHalf(g[i])) by {
        assert f[i].who == Cleared(f[i]).who == g[i].who && f[i].typ == Cleared(f[i]).typ == g[i].typ;
        assert Cleared(f[i]).mask == Cleared(g[i]).mask;
      }
    }
  }

  lemma {:induction false} BareHead(acl: Acl)
    requires acl != []
    ensures BareLegacy(acl) == (if Inheritable(acl[0]) then [Cleared(InheritHalf(acl[0]))] else []) + BareLegacy(acl[1..])
  {
    LegacyHead(acl);
    LegacyOne(acl[0]);
    BareAppend(Legacy([acl[0]]), Legacy(acl[1..]));
    if Inheritable(acl[0]) {
      assert [InheritHalf(acl[0])][1..] == [];
    }
  }

  lemma {:induction false} FixedBare(six: Acl, mode: Mode)
    requires IsSix(six)
    ensures BareLegacy(FixSix(six, mode)) == BareLegacy(six)
  {
    var f := FixSix(six, mode);
    SixUnnamed(six, mode);
    forall j | 0 <= j < 6 ensures f[j].flags == six[j].flags && Cleared(f[j]) == Cleared(six[j]) {
      assert AceMatches(six[j], FRESH_SIX[j]);
      AdjustCleared(six[j], mode.user);
      AdjustCleared(six[j], mode.group);
      AdjustCleared(six[j], mode.other);
    }
    BareFrom(f, six, 0);
    assert f[0..] == f && six[0..] == six;
  }

  lemma AdjustCleared(a: Ace, c: Rwx)
    requires !Named(a.who)
    ensures Cleared(AdjustDeny(a, c)) == Cleared(a) && Cleared(AdjustAllow(a, c)) == Cleared(a)
  {
    assert (a.mask + (RWXA - ModeBits(c))) - RWXA == a.mask - RWXA;
    assert ModeBits(c) <= RWXA && (a.mask + ModeBits(c)) - RWXA == a.mask - RWXA;
  }

  lemma {:induction false} FreshBare()
    ensures BareLegacy(FRESH_SIX) == []
  {
    var six := FRESH_SIX;
    assert six[6..] == [] && six[5..][1..] == six[6..] && six[4..][1..] == six[5..] && six[3..][1..] == six[4..];
    assert six[2..][1..] == six[3..] && six[1..][1..] == six[2..] && six[0..] == six;
    assert Legacy(six[5..]) == [];
    assert Legacy(six[4..]) == [];
    assert Legacy(six[3..]) == [];
    assert Legacy(six[2..]) == [];
    assert Legacy(six[1..]) == [];
    assert Legacy(six[0..]) == [];
  }

  /** Outside discard mode chmod leaves what children inherit as it is, but for mode bits of owner@, group@ and
      everyone@: canonical entries that are reused may be inherited. */
  lemma {:induction false} ChmodLegacy(acl: Acl, last: nat, aclmode: AclMode, mode: Mode, owner: nat)
    requires aclmode != Discard
    ensures BareLegacy(Chmod(acl, last, aclmode, mode, owner)) == BareLegacy(acl)
  {
    var walked, tail := Rewrite(None, acl, aclmode, mode, owner), TailCount(None, acl, last, aclmode, mode, owner);
    RewriteLegacy(None, acl, aclmode, mode, owner);
    assert [] + Legacy(acl) == Legacy(acl);
    CloseBare(walked, tail, mode);
  }

  lemma {:induction false} CloseBare(walked: Acl, tail: nat, mode: Mode)
    ensures BareLegacy(CloseWithSix(walked, tail, mode)) == BareLegacy(walked)
  {
    if HasCanonicalSix(walked, tail) {
      var n := |walked| - 6;
      FixedBare(walked[n..], mode);
      BareLegacyAppend(walked[..n], FixSix(walked[n..], mode));
      BareLegacyAppend(walked[..n], walked[n..]);
      assert walked[..n] + walked[n..] == walked;
    } else {
      FixedBare(FRESH_SIX, mode);
      FreshBare();
      BareLegacyAppend(walked, FixSix(FRESH_SIX, mode));
    }
  }
}
