/**
 Repeated chmods: after the first one the list does not grow any more, because denies and canonical six are reused.
 */
module AclChmodCount {
  import opened AclModel
  import opened AclChmodMode
  import opened AclChmodAccess

  // ----- lists on which the walk inserts nothing -----

  /** No entry needs a split, and every allow entry that needs a deny has a reusable one in front. */
  predicate Steady(prev: Held, acl: Acl, aclmode: AclMode)
    decreases |acl|
  {
    acl == [] || (!Inserts(prev, acl[0], aclmode) && Steady(Some(acl[0]), acl[1..], aclmode))
  }

  /** The walk's held entry can be reused exactly when the entry of the old list could. */
  ghost predicate SameReuse(held: Held, prev: Held) {
    forall a :: Reuses(held, a) <==> Reuses(prev, a)
  }

  lemma NextSameReuse(held: Held, a: Ace, aclmode: AclMode, mode: Mode, owner: nat)
    ensures !NeedsSplit(a) ==> SameReuse(NextHeld(held, a, aclmode, mode, owner), Some(a))
  {
  }

  lemma {:induction false} SteadyWalk(held: Held, prev: Held, rest: Acl, last: nat, aclmode: AclMode, mode: Mode,
                                      owner: nat)
    requires SameReuse(held, prev) && Steady(prev, rest, aclmode)
    ensures Inserted(held, rest, aclmode, mode, owner) == 0
    ensures TailCount(held, rest, last, aclmode, mode, owner) == last
    decreases |rest|
  {
    if rest != [] {
      assert Reuses(held, rest[0]) <==> Reuses(prev, rest[0]);
      NextSameReuse(held, rest[0], aclmode, mode, owner);
      SteadyWalk(NextHeld(held, rest[0], aclmode, mode, owner), Some(rest[0]), rest[1..], last, aclmode, mode, owner);
    }
  }

  // ----- the walk leaves a steady list behind -----

  lemma {:induction false} SteadyAppend(prev: Held, a: Acl, b: Acl, aclmode: AclMode)
    ensures Steady(prev, a + b, aclmode) <==> Steady(prev, a, aclmode) && Steady(LastOf(prev, a), b, aclmode)
    decreases |a|
  {
    if a == [] {
      assert a + b == b;
    } else {
      SteadyAppend(Some(a[0]), a[1..], b, aclmode);
      assert (a + b)[1..] == a[1..] + b;
    }
  }

  ghost predicate HeldSteady(last: Held, held: Held, aclmode: AclMode) {
    held.Some? ==> !Inserts(last, held.ace, aclmode)
  }

  lemma DenyReusable(held: Held, a: Ace, mode: Mode, owner: nat)
    requires Effective(a) && !NeedsSplit(a)
    ensures CanReuse(DenyFor(held, a, mode, owner), AllowAfter(held, a, mode, owner))
    ensures !NeedsSplit(DenyFor(held, a, mode, owner)) && !NeedsSplit(AllowAfter(held, a, mode, owner))
  {
    DenyGuards(held, a, mode, owner);
  }

  lemma {:induction false} FrontSteady(last: Held, held: Held, a: Ace, aclmode: AclMode, mode: Mode, owner: nat)
    requires HeldSteady(last, held, aclmode)
    ensures var front := Front(held, a, aclmode, mode, owner);
            && Steady(last, front, aclmode)
            && (!NeedsSplit(a) ==> HeldSteady(LastOf(last, front), NextHeld(held, a, aclmode, mode, owner), aclmode))
  {
    var front := Front(held, a, aclmode, mode, owner);
    if NeedsSplit(a) {
      assert Steady(held, [InheritHalf(a)], aclmode) && Steady(last, [InheritHalf(a)], aclmode);
      assert held.Some? ==> front[1..] == [InheritHalf(a)];
    } else if !Skipped(a) && NeedsDeny(a, aclmode) {
      DenyReusable(held, a, mode, owner);
      var deny := DenyFor(held, a, mode, owner);
      assert Steady(held, [deny], aclmode) && Steady(last, [deny], aclmode);
      assert held.Some? && !Reuses(held, a) ==> front[1..] == [deny];
    }
  }

  lemma {:induction false} RewriteSteady(last: Held, held: Held, rest: Acl, aclmode: AclMode, mode: Mode, owner: nat)
    requires HeldSteady(last, held, aclmode)
    ensures Steady(last, Rewrite(held, rest, aclmode, mode, owner), aclmode)
    decreases |rest|, rest != [] && NeedsSplit(rest[0])
  {
    if rest != [] {
      var a, front := rest[0], Front(held, rest[0], aclmode, mode, owner);
      FrontSteady(last, held, a, aclmode, mode, owner);
      if NeedsSplit(a) {
        RewriteSteady(LastOf(last, front), None, [ActiveHalf(a)] + rest[1..], aclmode, mode, owner);
        SteadyAppend(last, front, Rewrite(None, [ActiveHalf(a)] + rest[1..], aclmode, mode, owner), aclmode);
      } else {
        var next := NextHeld(held, a, aclmode, mode, owner);
        RewriteSteady(LastOf(last, front), next, rest[1..], aclmode, mode, owner);
        SteadyAppend(last, front, Rewrite(next, rest[1..], aclmode, mode, owner), aclmode);
      }
    }
  }

  // ----- closing with the six -----

  /** Entries for owner@, group@ and everyone@ that the walk neither splits nor precedes by a deny. */
  predicate Plain(acl: Acl) {
    acl == [] || (!Named(acl[0].who) && !NeedsSplit(acl[0]) && Plain(acl[1..]))
  }

  lemma {:induction false} PlainSteady(prev: Held, acl: Acl, aclmode: AclMode)
    requires Plain(acl)
    ensures Steady(prev, acl, aclmode)
    decreases |acl|
  {
    if acl != [] {
      PlainSteady(Some(acl[0]), acl[1..], aclmode);
    }
  }

  lemma {:induction false} SteadyPlain(prev: Held, f: Acl, g: Acl, i: nat, aclmode: AclMode)
    requires i <= |f| == |g| && Steady(prev, f[i..], aclmode)
    requires forall j :: 0 <= j < |f| ==> f[j].flags == g[j].flags && f[j].typ == g[j].typ && !Named(g[j].who)
    ensures Plain(g[i..])
    decreases |f| - i
  {
    if i < |f| {
      assert f[i..][1..] == f[i + 1..] && g[i..][1..] == g[i + 1..];
      SteadyPlain(Some(f[i]), f, g, i + 1, aclmode);
    }
  }

  /** What the walk makes of a plain entry. */
  function Swept(a: Ace): Ace {
    if Skipped(a) then a else Cleared(a)
  }

  function SweptAll(acl: Acl): Acl {
    if acl == [] then [] else [Swept(acl[0])] + SweptAll(acl[1..])
  }

  lemma {:induction false} WalkPlain(held: Held, f: Acl, aclmode: AclMode, mode: Mode, owner: nat)
    requires Plain(f)
    ensures Rewrite(held, f, aclmode, mode, owner) == Push(held, SweptAll(f))
    decreases |f|
  {
    if f != [] {
      WalkPlain(Some(Swept(f[0])), f[1..], aclmode, mode, owner);
    }
  }

  lemma Associates(a: Acl, b: Acl, c: Acl)
    ensures (a + b) + c == a + (b + c)
  {
  }

  lemma {:induction false} RewriteUnfold(held: Held, a: Ace, rest: Acl, aclmode: AclMode, mode: Mode, owner: nat)
    ensures Rewrite(held, [a] + rest, aclmode, mode, owner) ==
            Front(held, a, aclmode, mode, owner) +
            if NeedsSplit(a) then Rewrite(None, [ActiveHalf(a)] + rest, aclmode, mode, owner)
            else Rewrite(NextHeld(held, a, aclmode, mode, owner), rest, aclmode, mode, owner)
  {
    assert ([a] + rest)[1..] == rest;
  }

  /** Plain entries at the end are swept on their own, whatever comes before them. */
  lemma {:induction false} WalkEndsPlain(held: Held, base: Acl, f: Acl, aclmode: AclMode, mode: Mode, owner: nat)
    requires Plain(f)
    ensures Rewrite(held, base + f, aclmode, mode, owner) == Rewrite(held, base, aclmode, mode, owner) + SweptAll(f)
    decreases |base|, base != [] && NeedsSplit(base[0])
  {
    if base == [] {
      assert base + f == f;
      WalkPlain(held, f, aclmode, mode, owner);
    } else {
      var a, tail, front := base[0], base[1..], Front(held, base[0], aclmode, mode, owner);
      assert base == [a] + tail;
      Associates([a], tail, f);
      RewriteUnfold(held, a, tail, aclmode, mode, owner);
      RewriteUnfold(held, a, tail + f, aclmode, mode, owner);
      if NeedsSplit(a) {
        Associates([ActiveHalf(a)], tail, f);
        WalkEndsPlain(None, [ActiveHalf(a)] + tail, f, aclmode, mode, owner);
        Associates(front, Rewrite(None, [ActiveHalf(a)] + tail, aclmode, mode, owner), SweptAll(f));
      } else {
        var next := NextHeld(held, a, aclmode, mode, owner);
        WalkEndsPlain(next, tail, f, aclmode, mode, owner);
        Associates(front, Rewrite(next, tail, aclmode, mode, owner), SweptAll(f));
      }
    }
  }

  lemma {:induction false} SweptAt(f: Acl, i: nat)
    requires i < |f|
    ensures |SweptAll(f)| == |f| && SweptAll(f)[i] == Swept(f[i])
  {
    if 0 < i {
      SweptAt(f[1..], i - 1);
    } else if f[1..] != [] {
      SweptAt(f[1..], 0);
    }
  }

  // ----- the result of a chmod, and the next chmod -----

  /** A list that ends with six plain entries, and on which the walk inserts nothing. */
  ghost predicate Settled(acl: Acl, aclmode: AclMode) {
    6 <= |acl| && Steady(None, acl, aclmode) && Plain(LastSix(acl)) && SixShape(LastSix(acl))
  }

  lemma {:induction false} ShapePlain(prev: Held, six: Acl, f: Acl, aclmode: AclMode)
    requires SixShape(six) && SixShape(f) && Steady(prev, six, aclmode)
    requires forall i :: 0 <= i < 6 ==> f[i].flags == six[i].flags
    ensures Plain(f)
  {
    forall j | 0 <= j < |f| ensures f[j].flags == six[j].flags && f[j].typ == six[j].typ && !Named(f[j].who) {
      ShapeAt(f, six, j);
    }
    assert six[0..] == six && f[0..] == f;
    SteadyPlain(prev, six, f, 0, aclmode);
  }

  lemma {:induction false} FixedPlain(prev: Held, six: Acl, aclmode: AclMode, mode: Mode)
    requires IsSix(six) && Steady(prev, six, aclmode)
    ensures Plain(FixSix(six, mode)) && SixShape(FixSix(six, mode))
  {
    var f := FixSix(six, mode);
    OwnShape(six);
    FixedShape(six, mode);
    ShapePlain(prev, six, f, aclmode);
  }

  lemma {:induction false} ReusedPlain(walked: Acl, aclmode: AclMode, mode: Mode)
    requires 6 <= |walked| && IsSix(LastSix(walked)) && Steady(None, walked, aclmode)
    ensures var n := |walked| - 6;
            Steady(None, walked[..n], aclmode) && Plain(FixSix(walked[n..], mode)) && SixShape(FixSix(walked[n..], mode))
  {
    var n := |walked| - 6;
    assert walked == walked[..n] + walked[n..];
    SteadyAppend(None, walked[..n], walked[n..], aclmode);
    FixedPlain(LastOf(None, walked[..n]), walked[n..], aclmode, mode);
  }

  lemma FreshPlain(mode: Mode)
    ensures Plain(FixSix(FRESH_SIX, mode)) && SixShape(FixSix(FRESH_SIX, mode))
  {
    FixedShape(FRESH_SIX, mode);
    var f := FixSix(FRESH_SIX, mode);
    assert f[0..] == f;
    PlainFrom(f, 0);
  }

  lemma {:induction false} PlainFrom(f: Acl, i: nat)
    requires i <= |f| && forall j :: 0 <= j < |f| ==> f[j].flags == NO_FLAGS && !Named(f[j].who)
    ensures Plain(f[i..])
    decreases |f| - i
  {
    if i < |f| {
      PlainFrom(f, i + 1);
      assert f[i..][1..] == f[i + 1..];
    }
  }

  lemma {:induction false} SettledAppend(base: Acl, f: Acl, aclmode: AclMode)
    requires Steady(None, base, aclmode) && |f| == 6 && Plain(f) && SixShape(f)
    ensures Settled(base + f, aclmode) && LastSix(base + f) == f
  {
    assert LastSix(base + f) == f;
    assert Steady(None, base + f, aclmode) by {
      PlainSteady(LastOf(None, base), f, aclmode);
      SteadyAppend(None, base, f, aclmode);
    }
  }

  /** chmod leaves a settled list behind, whatever it started from. */
  lemma {:induction false} ChmodSettles(acl: Acl, last: nat, aclmode: AclMode, mode: Mode, owner: nat)
    ensures Settled(Chmod(acl, last, aclmode, mode, owner), aclmode)
  {
    FreshPlain(mode);
    if aclmode == Discard {
      SettledAppend([], FixSix(FRESH_SIX, mode), aclmode);
      assert [] + FixSix(FRESH_SIX, mode) == FixSix(FRESH_SIX, mode);
    } else {
      var walked, tail := Rewrite(None, acl, aclmode, mode, owner), TailCount(None, acl, last, aclmode, mode, owner);
      RewriteSteady(None, None, acl, aclmode, mode, owner);
      CloseSettles(walked, tail, aclmode, mode);
    }
  }

  lemma {:induction false} CloseSettles(walked: Acl, tail: nat, aclmode: AclMode, mode: Mode)
    requires Steady(None, walked, aclmode)
    ensures Settled(CloseWithSix(walked, tail, mode), aclmode)
  {
    if HasCanonicalSix(walked, tail) {
      ReusedPlain(walked, aclmode, mode);
      SettledAppend(walked[..|walked| - 6], FixSix(walked[|walked| - 6..], mode), aclmode);
    } else {
      FreshPlain(mode);
      SettledAppend(walked, FixSix(FRESH_SIX, mode), aclmode);
    }
  }

  /** The next chmod will know entry `i` of the six again: it clears the entry first, unless it is inherit-only. */
  predicate Recognisable(f: Acl, i: nat)
    requires i < |f| == 6
  {
    (if Skipped(f[i]) then f[i].mask else f[i].mask - RWXA) == FRESH_SIX[i].mask
  }

  predicate SixRecognisable(f: Acl)
    requires |f| == 6
  {
    && Recognisable(f, 0) && Recognisable(f, 1) && Recognisable(f, 2)
    && Recognisable(f, 3) && Recognisable(f, 4) && Recognisable(f, 5)
  }

  lemma {:induction false} SweptIsSix(f: Acl)
    requires SixShape(f)
    ensures |SweptAll(f)| == 6 && (IsSix(SweptAll(f)) <==> SixRecognisable(f))
  {
    forall i | 0 <= i < 6
      ensures |SweptAll(f)| == 6 && (AceMatches(SweptAll(f)[i], FRESH_SIX[i]) <==> Recognisable(f, i))
    {
      SweptAt(f, i);
    }
    SweptAt(f, 0);
  }

  /** On a settled list, chmod keeps the number of entries exactly when it recognises the six; otherwise it adds six. */
  lemma CountExact(acl: Acl, aclmode: AclMode, mode: Mode, owner: nat)
    requires Settled(acl, aclmode) && aclmode != Discard
    ensures |ChmodStored(acl, aclmode, mode, owner)| == |acl| + if SixRecognisable(LastSix(acl)) then 0 else 6
  {
    var base, f := acl[..|acl| - 6], LastSix(acl);
    assert acl == base + f;
    SteadyWalk(None, None, acl, |acl|, aclmode, mode, owner);
    RewriteLength(None, acl, aclmode, mode, owner);
    WalkEndsPlain(None, base, f, aclmode, mode, owner);
    SweptIsSix(f);
    LastSixAfter(Rewrite(None, base, aclmode, mode, owner), SweptAll(f));
    assert LastSix(SweptAll(f)) == SweptAll(f);
  }

  // ----- any number of chmods -----

  /** Settled, and closed by six entries that are in force and stay recognisable. */
  ghost predicate Lasting(acl: Acl, aclmode: AclMode) {
    Settled(acl, aclmode) && SixRecognisable(LastSix(acl)) && AllInForce(LastSix(acl))
  }

  lemma {:induction false} InForceEverywhere(f: Acl, i: nat)
    requires i <= |f| && forall j :: 0 <= j < |f| ==> InForce(f[j])
    ensures AllInForce(f[i..])
    decreases |f| - i
  {
    if i < |f| {
      InForceEverywhere(f, i + 1);
      assert f[i..][1..] == f[i + 1..];
    }
  }

  /** Adjusting six canonical entries in force keeps them recognisable. */
  lemma {:induction false} FixedRecognisable(six: Acl, mode: Mode)
    requires IsSix(six) && AllInForce(six)
    ensures SixRecognisable(FixSix(six, mode)) && AllInForce(FixSix(six, mode))
  {
    var f := FixSix(six, mode);
    FixedShape(six, mode);
    forall i | 0 <= i < 6 ensures Recognisable(f, i) && InForce(f[i]) {
      InForceAt(six, i);
      assert AceMatches(six[i], FRESH_SIX[i]);
      FixedMaskBase(six, mode, i);
    }
    InForceEverywhere(f, 0);
    assert f[0..] == f;
  }

  lemma AdjustBase(a: Ace, c: Rwx)
    ensures AdjustDeny(a, c).mask - RWXA == a.mask - RWXA && AdjustAllow(a, c).mask - RWXA == a.mask - RWXA
  {
    assert ModeBits(c) <= RWXA;
  }

  lemma FixedMaskBase(six: Acl, mode: Mode, i: nat)
    requires IsSix(six) && i < 6
    ensures FixSix(six, mode)[i].mask - RWXA == FRESH_SIX[i].mask
  {
    assert AceMatches(six[i], FRESH_SIX[i]);
    assert OWNER_ALLOW_MASK !! RWXA && EVERYONE_DENY_MASK !! RWXA && EVERYONE_ALLOW_MASK !! RWXA;
    AdjustBase(six[i], if i < 2 then mode.user else if i < 4 then mode.group else mode.other);
  }

  lemma CloseLasting(walked: Acl, tail: nat, aclmode: AclMode, mode: Mode)
    requires Settled(CloseWithSix(walked, tail, mode), aclmode)
    requires HasCanonicalSix(walked, tail) ==> AllInForce(LastSix(walked))
    ensures Lasting(CloseWithSix(walked, tail, mode), aclmode)
  {
    if HasCanonicalSix(walked, tail) {
      var n := |walked| - 6;
      FixedRecognisable(walked[n..], mode);
      LastSixAfter(walked[..n], FixSix(walked[n..], mode));
      assert LastSix(FixSix(walked[n..], mode)) == FixSix(walked[n..], mode);
    } else {
      FreshLasting(mode);
      LastSixAfter(walked, FixSix(FRESH_SIX, mode));
      assert LastSix(FixSix(FRESH_SIX, mode)) == FixSix(FRESH_SIX, mode);
    }
  }

  lemma FreshLasting(mode: Mode)
    ensures SixRecognisable(FixSix(FRESH_SIX, mode)) && AllInForce(FixSix(FRESH_SIX, mode))
  {
    InForceEverywhere(FRESH_SIX, 0);
    assert FRESH_SIX[0..] == FRESH_SIX;
    FixedRecognisable(FRESH_SIX, mode);
  }

  /** If none of the last six entries is inherit-only, the first chmod leaves a lasting list behind. */
  lemma FirstChmodLasts(acl: Acl, last: nat, aclmode: AclMode, mode: Mode, owner: nat)
    requires last <= |acl| && (6 <= |acl| ==> AllInForce(LastSix(acl)))
    ensures Lasting(Chmod(acl, last, aclmode, mode, owner), aclmode)
  {
    ChmodSettles(acl, last, aclmode, mode, owner);
    if aclmode == Discard {
      FreshLasting(mode);
      assert LastSix(FixSix(FRESH_SIX, mode)) == FixSix(FRESH_SIX, mode);
    } else {
      if ReusesSix(acl, last, aclmode, mode, owner) {
        ReusedInForce(acl, last, aclmode, mode, owner);
      }
      CloseLasting(Rewrite(None, acl, aclmode, mode, owner), TailCount(None, acl, last, aclmode, mode, owner), aclmode, mode);
    }
  }

  lemma NextChmodLasts(acl: Acl, aclmode: AclMode, mode: Mode, owner: nat)
    requires Lasting(acl, aclmode) && (aclmode == Discard ==> |acl| == 6)
    ensures Lasting(ChmodStored(acl, aclmode, mode, owner), aclmode)
    ensures |ChmodStored(acl, aclmode, mode, owner)| == |acl|
  {
    FirstChmodLasts(acl, |acl|, aclmode, mode, owner);
    if aclmode != Discard {
      CountExact(acl, aclmode, mode, owner);
    }
  }

  ghost predicate IsChmod(lists: seq<Acl>, aclmode: AclMode, modes: seq<Mode>, owner: nat, i: nat)
    requires i < |modes| && |lists| == |modes| + 1
  {
    lists[i + 1] == ChmodStored(lists[i], aclmode, modes[i], owner)
  }

  /** A series of chmods under one aclmode; each reads back what the one before has stored. */
  ghost predicate IsSeries(lists: seq<Acl>, aclmode: AclMode, modes: seq<Mode>, owner: nat) {
    && |lists| == |modes| + 1
    && forall i :: 0 <= i < |modes| ==> IsChmod(lists, aclmode, modes, owner, i)
  }

  lemma {:induction false} SeriesLasts(lists: seq<Acl>, aclmode: AclMode, modes: seq<Mode>, owner: nat, i: nat)
    requires IsSeries(lists, aclmode, modes, owner) && i < |lists|
    requires Lasting(lists[0], aclmode) && (aclmode == Discard ==> |lists[0]| == 6)
    ensures Lasting(lists[i], aclmode) && |lists[i]| == |lists[0]|
    decreases i
  {
    if 0 < i {
      SeriesLasts(lists, aclmode, modes, owner, i - 1);
      assert IsChmod(lists, aclmode, modes, owner, i - 1);
      NextChmodLasts(lists[i - 1], aclmode, modes[i - 1], owner);
    }
  }

  /** After the first chmod the number of entries never changes again, under any series of modes. */
  lemma CountNeverChanges(acl: Acl, last: nat, aclmode: AclMode, first: Mode, lists: seq<Acl>, modes: seq<Mode>,
                          owner: nat, i: nat)
    requires last <= |acl| && (6 <= |acl| ==> AllInForce(LastSix(acl)))
    requires IsSeries(lists, aclmode, modes, owner) && i < |lists|
    requires lists[0] == Chmod(acl, last, aclmode, first, owner)
    ensures |lists[i]| == |lists[0]|
  {
    FirstChmodLasts(acl, last, aclmode, first, owner);
    SeriesLasts(lists, aclmode, modes, owner, i);
  }
}
