/**
 The exceptions to the round trip between chmod and the mode computation, read off the list before the call.
 */
module AclChmodReuse {
  import opened AclModel
  import opened AclChmodMode
  import opened AclChmodAccess

  // ----- when the canonical six are reused -----

  /** An entry that the walk turns into the pattern, as far as the search for the canonical six looks. */
  predicate BecomesAce(a: Ace, pattern: Ace) {
    a.typ == pattern.typ && a.who == pattern.who && (if Skipped(a) then a.mask else a.mask - RWXA) == pattern.mask
  }

  predicate AllBecome(acl: Acl, pattern: Acl) {
    if acl == [] || pattern == [] then acl == [] && pattern == []
    else BecomesAce(acl[0], pattern[0]) && !NeedsSplit(acl[0]) && AllBecome(acl[1..], pattern[1..])
  }

  /** The six entries become the canonical ones; only the first of them may have to be split. */
  predicate BecomeSix(six: Acl) {
    six != [] && BecomesAce(six[0], FRESH_SIX[0]) && AllBecome(six[1..], FRESH_SIX[1..])
  }

  /** The last six entries are in one chunk and become the canonical six. */
  predicate WillReuseSix(acl: Acl, last: nat, aclmode: AclMode) {
    aclmode != Discard && 6 <= last && 6 <= |acl| && BecomeSix(LastSix(acl))
  }

  predicate AllMatch(acl: Acl, pattern: Acl) {
    if acl == [] || pattern == [] then acl == [] && pattern == []
    else AceMatches(acl[0], pattern[0]) && AllMatch(acl[1..], pattern[1..])
  }

  lemma {:induction false} MatchFrom(six: Acl, i: nat)
    requires |six| == 6 && i <= 6
    ensures AllMatch(six[i..], FRESH_SIX[i..]) <==> forall j :: i <= j < 6 ==> AceMatches(six[j], FRESH_SIX[j])
    ensures NoneNamed(FRESH_SIX[i..])
    decreases 6 - i
  {
    if i < 6 {
      MatchFrom(six, i + 1);
      assert six[i..][1..] == six[i + 1..] && FRESH_SIX[i..][1..] == FRESH_SIX[i + 1..];
    }
  }

  lemma {:induction false} SixMatch(six: Acl)
    requires |six| == 6
    ensures IsSix(six) <==> AllMatch(six, FRESH_SIX)
    ensures NoneNamed(FRESH_SIX)
  {
    MatchFrom(six, 0);
    assert six[0..] == six && FRESH_SIX[0..] == FRESH_SIX;
  }

  /** An entry that inserts something is not one of the canonical six, nor becomes one. */
  lemma InsertsNever(held: Held, a: Ace, pattern: Ace, aclmode: AclMode)
    requires !Named(pattern.who) && Inserts(held, a, aclmode)
    ensures !(BecomesAce(a, pattern) && !NeedsSplit(a))
  {
  }

  /** Unless a deny is fixed up for it, the held entry leaves as it is, and the entry at hand is held instead. */
  lemma QuietTurn(held: Held, a: Ace, pattern: Ace, aclmode: AclMode, mode: Mode, owner: nat)
    requires held.Some? && !Named(pattern.who) && !Inserts(held, a, aclmode)
    ensures var next := NextHeld(held, a, aclmode, mode, owner);
            && (AceMatches(next.ace, pattern) <==> BecomesAce(a, pattern) && !NeedsSplit(a))
            && |Front(held, a, aclmode, mode, owner)| == 1
            && (AceMatches(next.ace, pattern) ==> Front(held, a, aclmode, mode, owner) == [held.ace])
  {
  }

  /** Close to the end of the list, the rest comes out as the pattern, without an insertion, exactly when it becomes
      the pattern entry by entry. */
  lemma {:induction false} WalkTail(held: Held, rest: Acl, last: nat, pattern: Acl, aclmode: AclMode, mode: Mode,
                                    owner: nat)
    requires held.Some? && |rest| < 6 <= last && |pattern| == |rest| + 1 && NoneNamed(pattern)
    ensures 6 <= TailCount(held, rest, last, aclmode, mode, owner)
              && AllMatch(Rewrite(held, rest, aclmode, mode, owner), pattern)
            <==> AceMatches(held.ace, pattern[0]) && AllBecome(rest, pattern[1..])
    decreases |rest|
  {
    if rest == [] {
      assert [held.ace][1..] == [];
    } else {
      var a := rest[0];
      if Inserts(held, a, aclmode) {
        TailBound(held, rest, last, aclmode, mode, owner);
        InsertsNever(held, a, pattern[1], aclmode);
      } else {
        var next := NextHeld(held, a, aclmode, mode, owner);
        var front, tail := Front(held, a, aclmode, mode, owner), Rewrite(next, rest[1..], aclmode, mode, owner);
        QuietTurn(held, a, pattern[1], aclmode, mode, owner);
        WalkTail(next, rest[1..], last, pattern[1..], aclmode, mode, owner);
        assert (front + tail)[1..] == tail && (front + tail)[0] == front[0];
      }
    }
  }

  lemma CanonicalAfter(head: Acl, acl: Acl, tail: nat)
    requires 6 <= |acl|
    ensures HasCanonicalSix(head + acl, tail) <==> HasCanonicalSix(acl, tail)
  {
    LastSixAfter(head, acl);
  }

  lemma CanonicalMatch(acl: Acl, tail: nat)
    requires |acl| == 6
    ensures HasCanonicalSix(acl, tail) <==> 6 <= tail && AllMatch(acl, FRESH_SIX)
  {
    assert acl[|acl| - 6..] == acl;
    SixMatch(acl);
  }

  /** The held entry and five more. */
  lemma {:induction false} WalkFive(held: Held, rest: Acl, last: nat, aclmode: AclMode, mode: Mode, owner: nat)
    requires held.Some? && |rest| == 5
    ensures HasCanonicalSix(Rewrite(held, rest, aclmode, mode, owner), TailCount(held, rest, last, aclmode, mode, owner))
            <==> 6 <= last && AceMatches(held.ace, FRESH_SIX[0]) && AllBecome(rest, FRESH_SIX[1..])
    ensures 6 <= |Rewrite(held, rest, aclmode, mode, owner)|
  {
    TailBound(held, rest, last, aclmode, mode, owner);
    RewriteLength(held, rest, aclmode, mode, owner);
    if 6 <= last {
      SixMatch(FRESH_SIX);
      WalkTail(held, rest, last, FRESH_SIX, aclmode, mode, owner);
      if 6 <= TailCount(held, rest, last, aclmode, mode, owner) {
        CanonicalMatch(Rewrite(held, rest, aclmode, mode, owner), TailCount(held, rest, last, aclmode, mode, owner));
      }
    }
  }

  /** The same for the last six entries, after the first of them has been split if need be. */
  lemma {:induction false} WalkSix(held: Held, rest: Acl, last: nat, aclmode: AclMode, mode: Mode, owner: nat)
    requires |rest| == 6 && !NeedsSplit(rest[0])
    ensures HasCanonicalSix(Rewrite(held, rest, aclmode, mode, owner), TailCount(held, rest, last, aclmode, mode, owner))
            <==> 6 <= last && BecomeSix(rest)
  {
    var next := NextHeld(held, rest[0], aclmode, mode, owner);
    var last' := if Inserts(held, rest[0], aclmode) then Min(last, |rest|) else last;
    WalkFive(next, rest[1..], last', aclmode, mode, owner);
    FirstBecomes(held, rest[0], aclmode, mode, owner);
    CanonicalAfter(Front(held, rest[0], aclmode, mode, owner), Rewrite(next, rest[1..], aclmode, mode, owner),
                   TailCount(next, rest[1..], last', aclmode, mode, owner));
  }

  lemma FirstBecomes(held: Held, a: Ace, aclmode: AclMode, mode: Mode, owner: nat)
    requires !NeedsSplit(a)
    ensures AceMatches(NextHeld(held, a, aclmode, mode, owner).ace, FRESH_SIX[0]) <==> BecomesAce(a, FRESH_SIX[0])
  {
  }

  lemma {:induction false} SplitBecomes(six: Acl)
    requires |six| == 6 && NeedsSplit(six[0])
    ensures BecomeSix([ActiveHalf(six[0])] + six[1..]) <==> BecomeSix(six)
  {
    assert ([ActiveHalf(six[0])] + six[1..])[1..] == six[1..];
  }

  lemma {:induction false} ReusedFrom(held: Held, rest: Acl, last: nat, aclmode: AclMode, mode: Mode, owner: nat)
    requires 6 <= |rest|
    ensures HasCanonicalSix(Rewrite(held, rest, aclmode, mode, owner), TailCount(held, rest, last, aclmode, mode, owner))
            <==> 6 <= last && BecomeSix(LastSix(rest))
    decreases |rest|, NeedsSplit(rest[0])
  {
    var a, front := rest[0], Front(held, rest[0], aclmode, mode, owner);
    assert rest == [a] + rest[1..];
    if NeedsSplit(a) {
      var rest' := [ActiveHalf(a)] + rest[1..];
      ReusedFrom(None, rest', Min(last, |rest|), aclmode, mode, owner);
      RewriteLength(None, rest', aclmode, mode, owner);
      CanonicalAfter(front, Rewrite(None, rest', aclmode, mode, owner),
                     TailCount(None, rest', Min(last, |rest|), aclmode, mode, owner));
      SplitLast(rest, rest');
    } else if |rest| == 6 {
      assert LastSix(rest) == rest;
      WalkSix(held, rest, last, aclmode, mode, owner);
    } else {
      var next := NextHeld(held, a, aclmode, mode, owner);
      var last' := if Inserts(held, a, aclmode) then Min(last, |rest|) else last;
      ReusedFrom(next, rest[1..], last', aclmode, mode, owner);
      RewriteLength(next, rest[1..], aclmode, mode, owner);
      CanonicalAfter(front, Rewrite(next, rest[1..], aclmode, mode, owner),
                     TailCount(next, rest[1..], last', aclmode, mode, owner));
      LastSixAfter([a], rest[1..]);
    }
  }

  lemma {:induction false} SplitLast(acl: Acl, acl': Acl)
    requires 6 <= |acl| && NeedsSplit(acl[0]) && acl' == [ActiveHalf(acl[0])] + acl[1..]
    ensures BecomeSix(LastSix(acl')) <==> BecomeSix(LastSix(acl))
  {
    if |acl| == 6 {
      assert LastSix(acl) == acl && LastSix(acl') == acl';
      SplitBecomes(acl);
    } else {
      assert LastSix(acl') == LastSix(acl);
    }
  }

  /** Whether chmod will reuse the canonical six can be told from the list before the call. */
  lemma {:induction false} ReuseExact(acl: Acl, last: nat, aclmode: AclMode, mode: Mode, owner: nat)
    requires last <= |acl|
    ensures ReusesSix(acl, last, aclmode, mode, owner) <==> WillReuseSix(acl, last, aclmode)
  {
    if 6 <= |acl| {
      ReusedFrom(None, acl, last, aclmode, mode, owner);
    } else {
      TailBound(None, acl, last, aclmode, mode, owner);
    }
  }

  // ----- the round trip -----

  lemma {:induction false} ScopeAt(out: Acl, acl: Acl, i: nat)
    requires AllSameScope(out, acl) && i < |acl|
    ensures i < |out| && (InForce(out[i]) <==> InForce(acl[i]))
  {
    if i != 0 {
      ScopeAt(out[1..], acl[1..], i - 1);
    }
  }

  lemma {:induction false} SameFaith(out: Acl, acl: Acl, mode: Mode)
    requires |out| == 6 && |acl| == 6 && AllSameScope(out, acl)
    ensures Faithful(out, mode) <==> Faithful(acl, mode)
  {
    forall i | 0 <= i < 6 ensures InForce(out[i]) <==> InForce(acl[i]) {
      ScopeAt(out, acl, i);
    }
  }

  /** The mode computed after chmod is the mode that was set, unless the last six entries of the old list are in one
      chunk, become the canonical six, and the inherit-only ones among them matter for this mode. */
  lemma {:induction false} RoundTripExact(acl: Acl, last: nat, aclmode: AclMode, mode: Mode, owner: nat)
    requires AllowDeny(acl) && last <= |acl|
    ensures ModeOf(Chmod(acl, last, aclmode, mode, owner), mode.high) == mode <==>
            (WillReuseSix(acl, last, aclmode) ==> Faithful(LastSix(acl), mode))
  {
    ChmodRoundTrip(acl, last, aclmode, mode, owner);
    ReuseExact(acl, last, aclmode, mode, owner);
    if WillReuseSix(acl, last, aclmode) {
      LastSixScope(None, acl, last, aclmode, mode, owner);
      SameFaith(WalkedSix(acl, aclmode, mode, owner), LastSix(acl), mode);
    }
  }
}
