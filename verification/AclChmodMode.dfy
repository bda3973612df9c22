/**
 chmod and the mode: what the mode computation gives back after chmod, and exactly when that is the mode asked for.
 */
module AclChmodMode {
  import opened AclModel

  // ----- after the walk only the canonical six speak about rwx -----

  predicate AllowDeny(acl: Acl) {
    acl == [] || (acl[0].typ != Special && AllowDeny(acl[1..]))
  }

  predicate Clean(a: Ace) {
    Named(a.who) || a.flags.inheritOnly || a.mask !! RWXA
  }

  predicate AllClean(acl: Acl) {
    acl == [] || (Clean(acl[0]) && AllClean(acl[1..]))
  }

  lemma {:induction false} CleanAppend(a: Acl, b: Acl)
    requires AllClean(a) && AllClean(b)
    ensures AllClean(a + b)
  {
    if a == [] {
      assert a + b == b;
    } else {
      CleanAppend(a[1..], b);
      assert (a + b)[1..] == a[1..] + b;
    }
  }

  lemma {:induction false} RewriteClean(held: Held, rest: Acl, aclmode: AclMode, mode: Mode, owner: nat)
    requires held.Some? ==> Clean(held.ace)
    requires AllowDeny(rest)
    ensures AllClean(Rewrite(held, rest, aclmode, mode, owner))
    decreases |rest|, rest != [] && NeedsSplit(rest[0])
  {
    if rest != [] {
      var a := rest[0];
      assert AllClean(Front(held, a, aclmode, mode, owner));
      if NeedsSplit(a) {
        assert ([ActiveHalf(a)] + rest[1..])[1..] == rest[1..];
        RewriteClean(None, [ActiveHalf(a)] + rest[1..], aclmode, mode, owner);
        CleanAppend(Front(held, a, aclmode, mode, owner),
                    Rewrite(None, [ActiveHalf(a)] + rest[1..], aclmode, mode, owner));
      } else {
        RewriteClean(NextHeld(held, a, aclmode, mode, owner), rest[1..], aclmode, mode, owner);
        CleanAppend(Front(held, a, aclmode, mode, owner),
                    Rewrite(NextHeld(held, a, aclmode, mode, owner), rest[1..], aclmode, mode, owner));
      }
    }
  }

  lemma {:induction false} ModeBitSkipsClean(base: Acl, six: Acl, c: Class, p: Perm)
    requires AllClean(base) && p in RWXA
    ensures ModeBit(base + six, c, p) == ModeBit(six, c, p)
  {
    if base == [] {
      assert base + six == six;
    } else {
      ModeBitSkipsClean(base[1..], six, c, p);
      assert (base + six)[1..] == base[1..] + six;
    }
  }

  lemma {:induction false} CleanPrefix(acl: Acl, n: nat)
    requires AllClean(acl) && n <= |acl|
    ensures AllClean(acl[..n])
  {
    if n != 0 {
      CleanPrefix(acl[1..], n - 1);
      assert acl[..n][1..] == acl[1..][..n - 1];
    }
  }

  // ----- the six -----

  lemma {:induction false} ModeBitAt(acl: Acl, i: nat, c: Class, p: Perm)
    requires i < |acl|
    ensures ModeBit(acl[i..], c, p) <==>
            if SpeaksFor(acl[i], c) && p in acl[i].mask then acl[i].typ == Allow else ModeBit(acl[i + 1..], c, p)
  {
    assert acl[i..][1..] == acl[i + 1..];
  }

  predicate InForce(a: Ace) {
    !a.flags.inheritOnly
  }

  /** What a pair (deny, allow) leaves undecided goes on to the everyone@ pair. */
  predicate PairBit(deny: Ace, allow: Ace, has: bool, fallback: bool) {
    if has then InForce(allow) || fallback else !InForce(deny) && fallback
  }

  function ClassOf(mode: Mode, c: Class): Rwx {
    match c
    case UserClass => mode.user
    case GroupClass => mode.group
    case OtherClass => mode.other
  }

  predicate SixBit(six: Acl, mode: Mode, c: Class, p: Perm)
    requires |six| == 6
  {
    var everyone := p in ModeBits(mode.other) && InForce(six[5]);
    match c
    case UserClass => PairBit(six[0], six[1], p in ModeBits(mode.user), everyone)
    case GroupClass => PairBit(six[2], six[3], p in ModeBits(mode.group), everyone)
    case OtherClass => everyone
  }

  lemma FixedMasks(six: Acl, mode: Mode, p: Perm)
    requires IsSix(six) && p in RWXA
    ensures var f := FixSix(six, mode);
            && (p in f[0].mask <==> p !in ModeBits(mode.user)) && (p in f[1].mask <==> p in ModeBits(mode.user))
            && (p in f[2].mask <==> p !in ModeBits(mode.group)) && (p in f[3].mask <==> p in ModeBits(mode.group))
            && (p in f[4].mask <==> p !in ModeBits(mode.other)) && (p in f[5].mask <==> p in ModeBits(mode.other))
  {
    assert AceMatches(six[0], FRESH_SIX[0]) && AceMatches(six[1], FRESH_SIX[1]) && AceMatches(six[2], FRESH_SIX[2]);
    assert AceMatches(six[3], FRESH_SIX[3]) && AceMatches(six[4], FRESH_SIX[4]) && AceMatches(six[5], FRESH_SIX[5]);
    assert p !in OWNER_ALLOW_MASK && p !in EVERYONE_ALLOW_MASK && p !in EVERYONE_DENY_MASK;
  }

  ghost predicate SixShape(f: Acl) {
    && |f| == 6
    && f[0].who == Owner && f[1].who == Owner && f[2].who == OwningGroup && f[3].who == OwningGroup
    && f[4].who == Everyone && f[5].who == Everyone
    && f[0].typ == f[2].typ == f[4].typ == Deny && f[1].typ == f[3].typ == f[5].typ == Allow
  }

  lemma OwnShape(six: Acl)
    requires IsSix(six)
    ensures SixShape(six)
  {
    assert AceMatches(six[0], FRESH_SIX[0]) && AceMatches(six[1], FRESH_SIX[1]) && AceMatches(six[2], FRESH_SIX[2]);
    assert AceMatches(six[3], FRESH_SIX[3]) && AceMatches(six[4], FRESH_SIX[4]) && AceMatches(six[5], FRESH_SIX[5]);
  }

  lemma ShapeAt(f: Acl, g: Acl, j: nat)
    requires SixShape(f) && SixShape(g) && j < 6
    ensures !Named(f[j].who) && f[j].typ == g[j].typ
  {
  }

  lemma FixedShape(six: Acl, mode: Mode)
    requires IsSix(six)
    ensures var f := FixSix(six, mode);
            SixShape(f) && forall i :: 0 <= i < 6 ==> f[i].flags == six[i].flags
  {
    OwnShape(six);
    FixedKeepsShape(six, mode);
    forall i | 0 <= i < 6 ensures FixSix(six, mode)[i].flags == six[i].flags {
      FixedFlags(six, mode, i);
    }
  }

  lemma FixedFlags(six: Acl, mode: Mode, i: nat)
    requires |six| == 6 && i < 6
    ensures FixSix(six, mode)[i].flags == six[i].flags
  {
  }

  lemma FixedKeepsShape(six: Acl, mode: Mode)
    requires SixShape(six)
    ensures SixShape(FixSix(six, mode))
  {
  }

  lemma {:induction false} EveryoneMode(f: Acl, c: Class, p: Perm)
    requires SixShape(f) && (p in f[4].mask <==> p !in f[5].mask)
    ensures ModeBit(f[4..], c, p) <==> p in f[5].mask && InForce(f[5])
  {
    ModeBitAt(f, 5, c, p);
    ModeBitAt(f, 4, c, p);
  }

  lemma {:induction false} PairMode(f: Acl, i: nat, c: Class, p: Perm)
    requires i + 1 < |f| && f[i].typ == Deny && f[i + 1].typ == Allow && (p in f[i].mask <==> p !in f[i + 1].mask)
    requires (SpeaksFor(f[i], c) <==> InForce(f[i])) && (SpeaksFor(f[i + 1], c) <==> InForce(f[i + 1]))
    ensures ModeBit(f[i..], c, p) <==> PairBit(f[i], f[i + 1], p in f[i + 1].mask, ModeBit(f[i + 2..], c, p))
  {
    ModeBitAt(f, i, c, p);
    ModeBitAt(f, i + 1, c, p);
  }

  lemma {:induction false} PairSilent(f: Acl, i: nat, c: Class, p: Perm)
    requires i + 1 < |f| && !SpeaksFor(f[i], c) && !SpeaksFor(f[i + 1], c)
    ensures ModeBit(f[i..], c, p) <==> ModeBit(f[i + 2..], c, p)
  {
    ModeBitAt(f, i, c, p);
    ModeBitAt(f, i + 1, c, p);
  }

  predicate ShapeBit(f: Acl, c: Class, p: Perm)
    requires |f| == 6
  {
    var everyone := p in f[5].mask && InForce(f[5]);
    match c
    case UserClass => PairBit(f[0], f[1], p in f[1].mask, everyone)
    case GroupClass => PairBit(f[2], f[3], p in f[3].mask, everyone)
    case OtherClass => everyone
  }

  lemma {:induction false} ShapeMode(f: Acl, c: Class, p: Perm)
    requires SixShape(f)
    requires (p in f[0].mask <==> p !in f[1].mask) && (p in f[2].mask <==> p !in f[3].mask)
    requires p in f[4].mask <==> p !in f[5].mask
    ensures ModeBit(f, c, p) <==> ShapeBit(f, c, p)
  {
    EveryoneMode(f, c, p);
    if c == GroupClass {
      PairMode(f, 2, c, p);
    } else {
      PairSilent(f, 2, c, p);
    }
    if c == UserClass {
      PairMode(f, 0, c, p);
    } else {
      PairSilent(f, 0, c, p);
    }
    assert f[0..] == f;
  }

  lemma {:induction false} SixMode(six: Acl, mode: Mode, c: Class, p: Perm)
    requires IsSix(six) && p in RWXA
    ensures ModeBit(FixSix(six, mode), c, p) <==> SixBit(six, mode, c, p)
  {
    FixedShape(six, mode);
    FixedMasks(six, mode, p);
    ShapeMode(FixSix(six, mode), c, p);
  }

  // ----- the round trip -----

  /** The reused six give the mode back for one bit: whatever a skipped inherit-only entry leaves open must come out
      right from the everyone@ pair. */
  predicate FaithfulBit(six: Acl, mode: Mode, p: Perm)
    requires |six| == 6
  {
    var everyone := p in ModeBits(mode.other) && InForce(six[5]);
    && (if p in ModeBits(mode.user) then InForce(six[1]) || everyone else InForce(six[0]) || !everyone)
    && (if p in ModeBits(mode.group) then InForce(six[3]) || everyone else InForce(six[2]) || !everyone)
    && (p in ModeBits(mode.other) ==> InForce(six[5]))
  }

  predicate Faithful(six: Acl, mode: Mode)
    requires |six| == 6
  {
    FaithfulBit(six, mode, ReadData) && FaithfulBit(six, mode, WriteData) && FaithfulBit(six, mode, Execute)
  }

  lemma SixRoundTrip(six: Acl, mode: Mode)
    requires IsSix(six)
    ensures ModeOf(FixSix(six, mode), mode.high) == mode <==> Faithful(six, mode)
  {
    BitRoundTrip(six, mode, ReadData);
    BitRoundTrip(six, mode, WriteData);
    BitRoundTrip(six, mode, Execute);
    var f := FixSix(six, mode);
    SameClass(f, mode, UserClass);
    SameClass(f, mode, GroupClass);
    SameClass(f, mode, OtherClass);
  }

  lemma {:induction false} SameClass(f: Acl, mode: Mode, c: Class)
    ensures ClassMode(f, c) == ClassOf(mode, c) <==>
            && (ModeBit(f, c, ReadData) <==> ReadData in ModeBits(ClassOf(mode, c)))
            && (ModeBit(f, c, WriteData) <==> WriteData in ModeBits(ClassOf(mode, c)))
            && (ModeBit(f, c, Execute) <==> Execute in ModeBits(ClassOf(mode, c)))
  {
    var r := ClassOf(mode, c);
    assert r.r <==> ReadData in ModeBits(r);
    assert r.w <==> WriteData in ModeBits(r);
    assert r.x <==> Execute in ModeBits(r);
  }

  lemma FreshRoundTrip(mode: Mode)
    ensures ModeOf(FixSix(FRESH_SIX, mode), mode.high) == mode
  {
    SixRoundTrip(FRESH_SIX, mode);
  }

  lemma {:induction false} BitRoundTrip(six: Acl, mode: Mode, p: Perm)
    requires IsSix(six) && p in {ReadData, WriteData, Execute}
    ensures var f := FixSix(six, mode);
            FaithfulBit(six, mode, p) <==>
              && (ModeBit(f, UserClass, p) <==> p in ModeBits(mode.user))
              && (ModeBit(f, GroupClass, p) <==> p in ModeBits(mode.group))
              && (ModeBit(f, OtherClass, p) <==> p in ModeBits(mode.other))
  {
    SixMode(six, mode, UserClass, p);
    SixMode(six, mode, GroupClass, p);
    SixMode(six, mode, OtherClass, p);
  }

  lemma {:induction false} ModeOfSkipsClean(base: Acl, six: Acl, high: nat)
    requires AllClean(base)
    ensures ModeOf(base + six, high) == ModeOf(six, high)
  {
    forall c, p | p in RWXA ensures ModeBit(base + six, c, p) == ModeBit(six, c, p) {
      ModeBitSkipsClean(base, six, c, p);
    }
  }

  /** The six that chmod will reuse, after its walk. */
  function WalkedSix(acl: Acl, aclmode: AclMode, mode: Mode, owner: nat): Acl {
    var walked := Rewrite(None, acl, aclmode, mode, owner);
    if 6 <= |walked| then walked[|walked| - 6..] else FRESH_SIX
  }

  /** The guard of the branch that reuses the canonical six. */
  predicate ReusesSix(acl: Acl, last: nat, aclmode: AclMode, mode: Mode, owner: nat) {
    aclmode != Discard &&
    HasCanonicalSix(Rewrite(None, acl, aclmode, mode, owner), TailCount(None, acl, last, aclmode, mode, owner))
  }

  lemma {:induction false} CloseRoundTrip(walked: Acl, tail: nat, mode: Mode)
    requires AllClean(walked)
    ensures ModeOf(CloseWithSix(walked, tail, mode), mode.high) == mode <==>
            (HasCanonicalSix(walked, tail) ==> Faithful(walked[|walked| - 6..], mode))
  {
    if HasCanonicalSix(walked, tail) {
      var n := |walked| - 6;
      CleanPrefix(walked, n);
      ModeOfSkipsClean(walked[..n], FixSix(walked[n..], mode), mode.high);
      SixRoundTrip(walked[n..], mode);
    } else {
      ModeOfSkipsClean(walked, FixSix(FRESH_SIX, mode), mode.high);
      FreshRoundTrip(mode);
    }
  }

  /** chmod followed by the mode computation gives the mode back, unless reused canonical entries are inherit-only in a
      way that this mode can tell. */
  lemma {:induction false} ChmodRoundTrip(acl: Acl, last: nat, aclmode: AclMode, mode: Mode, owner: nat)
    requires AllowDeny(acl)
    ensures ModeOf(Chmod(acl, last, aclmode, mode, owner), mode.high) == mode <==>
            (ReusesSix(acl, last, aclmode, mode, owner) ==> Faithful(WalkedSix(acl, aclmode, mode, owner), mode))
  {
    if aclmode == Discard {
      FreshRoundTrip(mode);
    } else {
      RewriteClean(None, acl, aclmode, mode, owner);
      CloseRoundTrip(Rewrite(None, acl, aclmode, mode, owner), TailCount(None, acl, last, aclmode, mode, owner), mode);
    }
  }

  // ----- in terms of the list before the call -----

  lemma {:induction false} RewriteLength(held: Held, rest: Acl, aclmode: AclMode, mode: Mode, owner: nat)
    ensures |Rewrite(held, rest, aclmode, mode, owner)| ==
            |Push(held, [])| + |rest| + Inserted(held, rest, aclmode, mode, owner)
    decreases |rest|, rest != [] && NeedsSplit(rest[0])
  {
    if rest != [] {
      if NeedsSplit(rest[0]) {
        RewriteLength(None, [ActiveHalf(rest[0])] + rest[1..], aclmode, mode, owner);
      } else {
        RewriteLength(NextHeld(held, rest[0], aclmode, mode, owner), rest[1..], aclmode, mode, owner);
      }
    }
  }

  lemma {:induction false} TailBound(held: Held, rest: Acl, last: nat, aclmode: AclMode, mode: Mode, owner: nat)
    ensures TailCount(held, rest, last, aclmode, mode, owner) <= last
    ensures 0 < Inserted(held, rest, aclmode, mode, owner) ==> TailCount(held, rest, last, aclmode, mode, owner) <= |rest|
    decreases |rest|, rest != [] && NeedsSplit(rest[0])
  {
    if rest != [] {
      var a := rest[0];
      if NeedsSplit(a) {
        TailBound(None, [ActiveHalf(a)] + rest[1..], Min(last, |rest|), aclmode, mode, owner);
      } else {
        var last' := if Inserts(held, a, aclmode) then Min(last, |rest|) else last;
        TailBound(NextHeld(held, a, aclmode, mode, owner), rest[1..], last', aclmode, mode, owner);
      }
    }
  }

  predicate SameScope(a: Ace, b: Ace) {
    a.who == b.who && a.typ == b.typ && a.flags.inheritOnly == b.flags.inheritOnly
  }

  /** Entry by entry, the lists speak for the same principals, in the same way and with the same scope. */
  predicate AllSameScope(out: Acl, acl: Acl) {
    if acl == [] then out == []
    else out != [] && SameScope(out[0], acl[0]) && AllSameScope(out[1..], acl[1..])
  }

  lemma {:induction false} UninsertedScope(held: Held, orig: Ace, rest: Acl, aclmode: AclMode, mode: Mode, owner: nat)
    requires held.Some? && SameScope(held.ace, orig) && Inserted(held, rest, aclmode, mode, owner) == 0
    ensures AllSameScope(Rewrite(held, rest, aclmode, mode, owner), [orig] + rest)
    decreases |rest|
  {
    var acl := [orig] + rest;
    assert acl[1..] == rest;
    if rest != [] {
      var a, next := rest[0], NextHeld(held, rest[0], aclmode, mode, owner);
      UninsertedScope(next, a, rest[1..], aclmode, mode, owner);
      assert [a] + rest[1..] == rest;
      if !Skipped(a) && NeedsDeny(a, aclmode) {
        assert SameScope(DenyFor(held, a, mode, owner), orig);
      }
    }
  }

  function LastSix(acl: Acl): Acl
    requires 6 <= |acl|
  {
    acl[|acl| - 6..]
  }

  lemma LastSixAfter(head: Acl, acl: Acl)
    requires 6 <= |acl|
    ensures LastSix(head + acl) == LastSix(acl)
  {
  }

  lemma {:induction false} SwapHead(out: Acl, a: Ace, b: Ace, tail: Acl)
    requires AllSameScope(out, [a] + tail) && SameScope(a, b)
    ensures AllSameScope(out, [b] + tail)
  {
    assert ([a] + tail)[1..] == tail && ([b] + tail)[1..] == tail;
  }

  lemma {:induction false} LastSixHead(a: Ace, b: Ace, tail: Acl, out: Acl)
    requires 5 <= |tail| && SameScope(a, b) && AllSameScope(out, LastSix([a] + tail))
    ensures AllSameScope(out, LastSix([b] + tail))
  {
    if |tail| == 5 {
      assert LastSix([a] + tail) == [a] + tail && LastSix([b] + tail) == [b] + tail;
      SwapHead(out, a, b, tail);
    } else {
      LastSixAfter([a], tail);
      LastSixAfter([b], tail);
    }
  }

  /** If chmod keeps at least six entries in the last chunk, the last six come from the last six of the old list. */
  lemma {:induction false} LastSixScope(held: Held, rest: Acl, last: nat, aclmode: AclMode, mode: Mode, owner: nat)
    requires 6 <= |rest| && 6 <= TailCount(held, rest, last, aclmode, mode, owner)
    ensures 6 <= |Rewrite(held, rest, aclmode, mode, owner)|
    ensures AllSameScope(LastSix(Rewrite(held, rest, aclmode, mode, owner)), LastSix(rest))
    decreases |rest|, NeedsSplit(rest[0]), 1
  {
    var a, front := rest[0], Front(held, rest[0], aclmode, mode, owner);
    assert rest == [a] + rest[1..];
    if NeedsSplit(a) {
      var rest' := [ActiveHalf(a)] + rest[1..];
      LastSixScope(None, rest', Min(last, |rest|), aclmode, mode, owner);
      var tail := Rewrite(None, rest', aclmode, mode, owner);
      LastSixAfter(front, tail);
      LastSixHead(ActiveHalf(a), a, rest[1..], LastSix(tail));
    } else {
      var next := NextHeld(held, a, aclmode, mode, owner);
      var last' := if Inserts(held, a, aclmode) then Min(last, |rest|) else last;
      NextSixScope(next, a, rest[1..], last', aclmode, mode, owner);
      LastSixAfter(front, Rewrite(next, rest[1..], aclmode, mode, owner));
    }
  }

  /** After an entry that is held now, and was `orig`. */
  lemma {:induction false} NextSixScope(held: Held, orig: Ace, rest: Acl, last: nat, aclmode: AclMode, mode: Mode,
                                        owner: nat)
    requires 5 <= |rest| && 6 <= TailCount(held, rest, last, aclmode, mode, owner)
    requires held.Some? && SameScope(held.ace, orig)
    ensures 6 <= |Rewrite(held, rest, aclmode, mode, owner)|
    ensures AllSameScope(LastSix(Rewrite(held, rest, aclmode, mode, owner)), LastSix([orig] + rest))
    decreases |rest|, true, 2
  {
    if |rest| > 5 {
      LastSixScope(held, rest, last, aclmode, mode, owner);
      LastSixAfter([orig], rest);
    } else {
      ExactlySixScope(held, orig, rest, last, aclmode, mode, owner);
    }
  }

  lemma {:induction false} ExactlySixScope(held: Held, orig: Ace, rest: Acl, last: nat, aclmode: AclMode, mode: Mode,
                                           owner: nat)
    requires |rest| == 5 && 6 <= TailCount(held, rest, last, aclmode, mode, owner)
    requires held.Some? && SameScope(held.ace, orig)
    ensures |Rewrite(held, rest, aclmode, mode, owner)| == 6
    ensures AllSameScope(LastSix(Rewrite(held, rest, aclmode, mode, owner)), LastSix([orig] + rest))
  {
    TailBound(held, rest, last, aclmode, mode, owner);
    RewriteLength(held, rest, aclmode, mode, owner);
    UninsertedScope(held, orig, rest, aclmode, mode, owner);
    assert LastSix([orig] + rest) == [orig] + rest;
    assert LastSix(Rewrite(held, rest, aclmode, mode, owner)) == Rewrite(held, rest, aclmode, mode, owner);
  }

  predicate AllInForce(acl: Acl) {
    acl == [] || (InForce(acl[0]) && AllInForce(acl[1..]))
  }

  lemma {:induction false} ScopeInForce(out: Acl, acl: Acl)
    requires AllSameScope(out, acl) && AllInForce(acl)
    ensures AllInForce(out)
  {
    if acl != [] {
      ScopeInForce(out[1..], acl[1..]);
    }
  }

  lemma {:induction false} InForceAt(acl: Acl, i: nat)
    requires AllInForce(acl) && i < |acl|
    ensures InForce(acl[i])
  {
    if i != 0 {
      InForceAt(acl[1..], i - 1);
    }
  }

  /** If none of the last six entries is inherit-only, chmod and the mode computation are a round trip. */
  lemma {:induction false} RoundTripWhenInForce(acl: Acl, last: nat, aclmode: AclMode, mode: Mode, owner: nat)
    requires AllowDeny(acl) && last <= |acl|
    requires 6 <= |acl| ==> AllInForce(LastSix(acl))
    ensures ModeOf(Chmod(acl, last, aclmode, mode, owner), mode.high) == mode
  {
    ChmodRoundTrip(acl, last, aclmode, mode, owner);
    if ReusesSix(acl, last, aclmode, mode, owner) {
      ReusedInForce(acl, last, aclmode, mode, owner);
    }
  }

  lemma ReusedInForce(acl: Acl, last: nat, aclmode: AclMode, mode: Mode, owner: nat)
    requires last <= |acl| && ReusesSix(acl, last, aclmode, mode, owner)
    requires 6 <= |acl| ==> AllInForce(LastSix(acl))
    ensures AllInForce(WalkedSix(acl, aclmode, mode, owner)) && Faithful(WalkedSix(acl, aclmode, mode, owner), mode)
  {
    TailBound(None, acl, last, aclmode, mode, owner);
    LastSixScope(None, acl, last, aclmode, mode, owner);
    var six := WalkedSix(acl, aclmode, mode, owner);
    ScopeInForce(six, LastSix(acl));
    AllFaithful(six, mode);
  }

  lemma {:induction false} AllFaithful(six: Acl, mode: Mode)
    requires |six| == 6 && AllInForce(six)
    ensures Faithful(six, mode)
  {
    InForceAt(six, 0);
    InForceAt(six, 1);
    InForceAt(six, 2);
    InForceAt(six, 3);
    InForceAt(six, 5);
  }

  // ----- when it fails -----

  const HIDDEN: Flags := Flags(true, false, false, true, false)

  /** The canonical six, with an allow entry for everyone@ that only serves inheritance. */
  const HIDDEN_SIX: Acl := FRESH_SIX[5 := FRESH_SIX[5].(flags := HIDDEN)]

  const WORLD_READABLE: Mode := Mode(0, Rwx(false, false, false), Rwx(false, false, false), Rwx(true, false, false))

  /** Such a list is reused as it is, so a world-readable mode is lost. */
  lemma RoundTripCanFail()
    ensures ModeOf(ChmodStored(HIDDEN_SIX, Passthrough, WORLD_READABLE, 0), 0) != WORLD_READABLE
  {
    WalkOfSix(HIDDEN_SIX, WORLD_READABLE);
    ChmodRoundTrip(HIDDEN_SIX, 6, Passthrough, WORLD_READABLE, 0);
  }

  /** In passthrough mode the walk leaves a list of clean, unsplit entries alone. */
  lemma {:induction false} QuietWalk(held: Held, rest: Acl, last: nat, mode: Mode)
    requires Quiet(rest)
    ensures Rewrite(held, rest, Passthrough, mode, 0) == Push(held, rest)
    ensures TailCount(held, rest, last, Passthrough, mode, 0) == last
    decreases |rest|
  {
    if rest != [] {
      QuietWalk(Some(rest[0]), rest[1..], last, mode);
      assert NextHeld(held, rest[0], Passthrough, mode, 0) == Some(rest[0]);
      assert [rest[0]] + rest[1..] == rest;
    }
  }

  predicate Quiet(acl: Acl) {
    acl == [] || (!NeedsSplit(acl[0]) && (Skipped(acl[0]) || Cleared(acl[0]) == acl[0]) && Quiet(acl[1..]))
  }

  lemma {:induction false} WalkOfSix(six: Acl, mode: Mode)
    requires six == HIDDEN_SIX
    ensures Rewrite(None, six, Passthrough, mode, 0) == six && TailCount(None, six, 6, Passthrough, mode, 0) == 6
    ensures AllowDeny(six)
  {
    assert Quiet(six[6..]) && AllowDeny(six[6..]);
    assert six[5..][1..] == six[6..] && six[4..][1..] == six[5..] && six[3..][1..] == six[4..];
    assert six[2..][1..] == six[3..] && six[1..][1..] == six[2..];
    assert Quiet(six[5..]) && AllowDeny(six[5..]);
    assert Quiet(six[4..]) && AllowDeny(six[4..]);
    assert Quiet(six[3..]) && AllowDeny(six[3..]);
    assert Quiet(six[2..]) && AllowDeny(six[2..]);
    assert Quiet(six[1..]) && AllowDeny(six[1..]);
    QuietWalk(None, six, 6, mode);
  }
}
