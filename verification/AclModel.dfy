/**
 Access control lists: entries, the questions asked of them, and the Unix mode they stand for.
 */
module AclModel {

  /** The bits of an access mask. Listing a directory, adding a file and adding a subdirectory share the bits of
      ReadData, WriteData and AppendData. */
  datatype Perm =
    | ReadData | WriteData | AppendData | Execute
    | ReadNamedAttrs | WriteNamedAttrs | DeleteChild | ReadAttributes | WriteAttributes
    | Delete | ReadAcl | WriteAcl | WriteOwner | Synchronize

  type Mask = set<Perm>

  /** The bits that a Unix mode speaks about (OGE_CLEAR and OKAY_MASK_BITS are this mask). */
  const RWXA: Mask := {ReadData, WriteData, AppendData, Execute}

  const OWNER_ALLOW_MASK: Mask := {WriteAcl, WriteOwner, WriteAttributes, WriteNamedAttrs}
  const EVERYONE_DENY_MASK: Mask := {WriteAcl, WriteOwner, WriteAttributes, WriteNamedAttrs}
  const EVERYONE_ALLOW_MASK: Mask := {ReadAcl, ReadAttributes, ReadNamedAttrs, Synchronize}

  const CREATOR_OWNER_UID: nat := 2147483648

  /** Whom an entry is about: owner@, group@, everyone@, or a named user or group. */
  datatype Who = Owner | OwningGroup | Everyone | User(uid: nat) | Group(gid: nat)

  /** Audit, alarm and object entries are all `Special` here. */
  datatype AceType = Allow | Deny | Special

  datatype Flags = Flags(fileInherit: bool, dirInherit: bool, noPropagate: bool, inheritOnly: bool, inherited: bool)

  const NO_FLAGS: Flags := Flags(false, false, false, false, false)

  datatype Ace = Ace(who: Who, typ: AceType, flags: Flags, mask: Mask)

  type Acl = seq<Ace>

  predicate Named(who: Who) {
    who.User? || who.Group?
  }

  // ----- access -----

  datatype File = File(isDir: bool, owner: nat, group: nat)

  datatype Cred = Cred(uid: nat, groups: set<nat>)

  predicate Matches(who: Who, file: File, cred: Cred) {
    match who
    case Owner => cred.uid == file.owner
    case OwningGroup => file.group in cred.groups
    case Everyone => true
    case User(uid) => uid != CREATOR_OWNER_UID && uid == cred.uid
    case Group(gid) => gid in cred.groups
  }

  /** Entries that only serve inheritance are skipped on directories. */
  predicate Applies(a: Ace, file: File, cred: Cred) {
    !(file.isDir && a.flags.inheritOnly) && Matches(a.who, file, cred)
  }

  datatype Verdict = Granted | Denied | Undecided

  /** The rule of section 6.2.1 of RFC 7530: the first applicable entry that mentions a bit decides it. */
  function Decide(acl: Acl, file: File, cred: Cred, p: Perm): Verdict {
    if acl == [] then Undecided
    else if Applies(acl[0], file, cred) && p in acl[0].mask then if acl[0].typ == Deny then Denied else Granted
    else Decide(acl[1..], file, cred, p)
  }

  // ----- modes -----

  datatype Rwx = Rwx(r: bool, w: bool, x: bool)

  /** A file mode: the file type, set-id and sticky bits, and nine permission bits. */
  datatype Mode = Mode(high: nat, user: Rwx, group: Rwx, other: Rwx)

  function ModeBits(c: Rwx): Mask {
    (if c.r then {ReadData} else {}) + (if c.w then {WriteData, AppendData} else {}) + (if c.x then {Execute} else {})
  }

  datatype Class = UserClass | GroupClass | OtherClass

  /** Does this entry speak for the class in the mode computation? */
  predicate SpeaksFor(a: Ace, c: Class) {
    !a.flags.inheritOnly &&
    match a.who
    case Owner => c == UserClass
    case OwningGroup => c == GroupClass
    case Everyone => true
    case _ => false
  }

  /** The rule of section 6.3.2 of RFC 7530: a mode bit is set when the first entry that speaks for the class and
      mentions the bit is an allow entry. */
  predicate ModeBit(acl: Acl, c: Class, p: Perm) {
    acl != [] &&
    if SpeaksFor(acl[0], c) && p in acl[0].mask then acl[0].typ == Allow else ModeBit(acl[1..], c, p)
  }

  function ClassMode(acl: Acl, c: Class): Rwx {
    Rwx(ModeBit(acl, c, ReadData), ModeBit(acl, c, WriteData), ModeBit(acl, c, Execute))
  }

  function ModeOf(acl: Acl, high: nat): Mode {
    Mode(high, ClassMode(acl, UserClass), ClassMode(acl, GroupClass), ClassMode(acl, OtherClass))
  }

  // ----- chmod -----

  datatype AclMode = Discard | Groupmask | Passthrough

  predicate Skipped(a: Ace) {
    a.typ == Special || a.flags.inheritOnly
  }

  predicate NeedsSplit(a: Ace) {
    !Skipped(a) && (a.flags.fileInherit || a.flags.dirInherit)
  }

  /** The inherit-only half of a split entry, and the half that stays in force. */
  function InheritHalf(a: Ace): Ace {
    a.(flags := a.flags.(inheritOnly := true))
  }

  function ActiveHalf(a: Ace): Ace {
    a.(flags := NO_FLAGS)
  }

  function ClassRwx(who: Who, mode: Mode, owner: nat): Rwx {
    if who == User(owner) then mode.user else mode.group
  }

  /** Per bit that the allow entry mentions, the deny in front of it denies exactly what the mode leaves out. */
  function PrependFixup(deny: Ace, allow: Ace, mode: Mode, owner: nat): Ace {
    var touched := allow.mask * RWXA;
    deny.(mask := deny.mask - touched + (touched - ModeBits(ClassRwx(deny.who, mode, owner))))
  }

  /** What a group entry may not have because the owner does not have it. */
  function ExtraBits(mode: Mode): Mask {
    ModeBits(mode.group) - ModeBits(mode.user)
  }

  function GroupFixup(a: Ace, deny: Ace, mode: Mode): Ace {
    if deny.who.Group? then a.(mask := a.mask - ExtraBits(mode)) else a
  }

  predicate CanReuse(prev: Ace, a: Ace) {
    && prev.typ == Deny
    && prev.flags == NO_FLAGS && Named(prev.who) && (prev.who.Group? <==> a.who.Group?)
    && prev.mask <= a.mask * RWXA
  }

  datatype Held = None | Some(ace: Ace)

  /** The list that starts with the held entry, if there is one. */
  function Push(held: Held, acl: Acl): Acl {
    if held.None? then acl else [held.ace] + acl
  }

  predicate Reuses(held: Held, a: Ace) {
    held.Some? && CanReuse(held.ace, a)
  }

  /** Only an allow entry for a named principal gets a deny in front of it, and only in groupmask mode. */
  predicate NeedsDeny(a: Ace, aclmode: AclMode) {
    aclmode == Groupmask && Named(a.who) && a.typ == Allow
  }

  function DenyFor(held: Held, a: Ace, mode: Mode, owner: nat): Ace {
    var deny := PrependFixup(if Reuses(held, a) then held.ace else Ace(a.who, Deny, NO_FLAGS, {}), a, mode, owner);
    GroupFixup(deny, deny, mode)
  }

  function AllowAfter(held: Held, a: Ace, mode: Mode, owner: nat): Ace {
    GroupFixup(a, DenyFor(held, a, mode, owner), mode)
  }

  function Cleared(a: Ace): Ace {
    if Named(a.who) then a else a.(mask := a.mask - RWXA)
  }

  /** What becomes of an entry that is not split: it is held until the next one has been looked at. */
  function NextHeld(held: Held, a: Ace, aclmode: AclMode, mode: Mode, owner: nat): Held {
    if Skipped(a) then Some(a)
    else if NeedsDeny(a, aclmode) then Some(AllowAfter(held, a, mode, owner))
    else Some(Cleared(a))
  }

  /** What leaves the walk when it comes to entry `a`: the held entry, perhaps fixed up, or a new deny. */
  function Front(held: Held, a: Ace, aclmode: AclMode, mode: Mode, owner: nat): Acl {
    if NeedsSplit(a) then Push(held, [InheritHalf(a)])
    else if Skipped(a) || !NeedsDeny(a, aclmode) then Push(held, [])
    else Push(if Reuses(held, a) then None else held, [DenyFor(held, a, mode, owner)])
  }

  /** The walk over the entries. `held` is the previous entry, which the next one may still change; after a split
      it is `None`, because the cursor then points at the same entry again. */
  function Rewrite(held: Held, rest: Acl, aclmode: AclMode, mode: Mode, owner: nat): Acl
    decreases |rest|, rest != [] && NeedsSplit(rest[0])
  {
    if rest == [] then Push(held, [])
    else
      Front(held, rest[0], aclmode, mode, owner) +
      if NeedsSplit(rest[0]) then Rewrite(None, [ActiveHalf(rest[0])] + rest[1..], aclmode, mode, owner)
      else Rewrite(NextHeld(held, rest[0], aclmode, mode, owner), rest[1..], aclmode, mode, owner)
  }

  /** Does the walk insert a new entry before this one? */
  predicate Inserts(held: Held, a: Ace, aclmode: AclMode) {
    NeedsSplit(a) || (!Skipped(a) && NeedsDeny(a, aclmode) && !Reuses(held, a))
  }

  function Min(a: nat, b: nat): nat {
    if a < b then a else b
  }

  /** How many entries share the last chunk after the walk: each insertion cuts its chunk before the current entry. */
  function TailCount(held: Held, rest: Acl, last: nat, aclmode: AclMode, mode: Mode, owner: nat): nat
    decreases |rest|, rest != [] && NeedsSplit(rest[0])
  {
    if rest == [] then last
    else
      var a := rest[0];
      if NeedsSplit(a) then TailCount(None, [ActiveHalf(a)] + rest[1..], Min(last, |rest|), aclmode, mode, owner)
      else
        var last' := if Inserts(held, a, aclmode) then Min(last, |rest|) else last;
        TailCount(NextHeld(held, a, aclmode, mode, owner), rest[1..], last', aclmode, mode, owner)
  }

  /** How many entries the walk adds. */
  function Inserted(held: Held, rest: Acl, aclmode: AclMode, mode: Mode, owner: nat): nat
    decreases |rest|, rest != [] && NeedsSplit(rest[0])
  {
    if rest == [] then 0
    else
      var a := rest[0];
      if NeedsSplit(a) then 1 + Inserted(None, [ActiveHalf(a)] + rest[1..], aclmode, mode, owner)
      else
        (if Inserts(held, a, aclmode) then 1 else 0)
        + Inserted(NextHeld(held, a, aclmode, mode, owner), rest[1..], aclmode, mode, owner)
  }

  const FRESH_SIX: Acl := [
    Ace(Owner, Deny, NO_FLAGS, {}), Ace(Owner, Allow, NO_FLAGS, OWNER_ALLOW_MASK),
    Ace(OwningGroup, Deny, NO_FLAGS, {}), Ace(OwningGroup, Allow, NO_FLAGS, {}),
    Ace(Everyone, Deny, NO_FLAGS, EVERYONE_DENY_MASK), Ace(Everyone, Allow, NO_FLAGS, EVERYONE_ALLOW_MASK)]

  predicate AceMatches(a: Ace, pattern: Ace) {
    a.mask == pattern.mask && a.typ == pattern.typ && a.who == pattern.who
  }

  /** The last six entries are the canonical six, whatever their inheritance flags. */
  predicate IsSix(six: Acl) {
    |six| == 6 && forall i :: 0 <= i < 6 ==> AceMatches(six[i], FRESH_SIX[i])
  }

  predicate HasCanonicalSix(acl: Acl, tail: nat) {
    6 <= |acl| && 6 <= tail && IsSix(acl[|acl| - 6..])
  }

  /** Each of r, w and x goes into the allow half of a pair when the mode has it, else into the deny half. */
  function AdjustDeny(a: Ace, c: Rwx): Ace {
    a.(mask := a.mask + (RWXA - ModeBits(c)))
  }

  function AdjustAllow(a: Ace, c: Rwx): Ace {
    a.(mask := a.mask + ModeBits(c))
  }

  function FixSix(six: Acl, mode: Mode): Acl
    requires |six| == 6
  {
    [AdjustDeny(six[0], mode.user), AdjustAllow(six[1], mode.user),
     AdjustDeny(six[2], mode.group), AdjustAllow(six[3], mode.group),
     AdjustDeny(six[4], mode.other), AdjustAllow(six[5], mode.other)]
  }

  /** Closes the list with the canonical six, reusing those that are there. */
  function CloseWithSix(acl: Acl, tail: nat, mode: Mode): Acl {
    if HasCanonicalSix(acl, tail) then acl[..|acl| - 6] + FixSix(acl[|acl| - 6..], mode)
    else acl + FixSix(FRESH_SIX, mode)
  }

  /** chmod on a list whose last chunk holds `last` entries. */
  function Chmod(acl: Acl, last: nat, aclmode: AclMode, mode: Mode, owner: nat): Acl {
    if aclmode == Discard then FixSix(FRESH_SIX, mode)
    else
      CloseWithSix(Rewrite(None, acl, aclmode, mode, owner), TailCount(None, acl, last, aclmode, mode, owner), mode)
  }

  /** An ACL as it is read back from disk is one chunk. */
  function ChmodStored(acl: Acl, aclmode: AclMode, mode: Mode, owner: nat): Acl {
    Chmod(acl, |acl|, aclmode, mode, owner)
  }
}
