/**
 The replication check: what get_replication and check_replication accept.
 */
module VdevReplication {
  import opened VdevModel

  const ZPOOL_FUZZ: nat := 16 * 1024 * 1024

  datatype RepKind = FileVdev | DiskVdev | RaidzVdev | MirrorVdev

  datatype Rep = Rep(kind: RepKind, children: nat, parity: nat)

  /** The replication level of one top-level vdev. */
  function RepOf(t: Top): Rep {
    match t
    case Single(leaf) => Rep(if leaf.dev.isFile then FileVdev else DiskVdev, 1, 0)
    case Group(raidz, parity, children, _) =>
      Rep(if raidz then RaidzVdev else MirrorVdev, |children|, if raidz then parity else 0)
  }

  /** A child against the last one before it whose size is known. */
  predicate Agrees(last: Option<Device>, d: Device) {
    last.Some? ==>
      && last.value.isFile == d.isFile
      && (last.value.size.Some? && d.size.Some? ==>
            last.value.size.value - ZPOOL_FUZZ <= d.size.value <= last.value.size.value + ZPOOL_FUZZ)
  }

  predicate Uniform(children: seq<Leaf>, last: Option<Device>) {
    children == [] ||
    (&& Agrees(last, children[0].dev)
     && Uniform(children[1..], if children[0].dev.size.Some? then Some(children[0].dev) else last))
  }

  predicate GroupsUniform(top: seq<Top>) {
    top == [] || ((IsLog(top[0]) || top[0].Single? || Uniform(top[0].children, None)) && GroupsUniform(top[1..]))
  }

  /** All top-level vdevs that are not logs have this level. */
  predicate AllAre(top: seq<Top>, rep: Rep) {
    top == [] || ((IsLog(top[0]) || RepOf(top[0]) == rep) && AllAre(top[1..], rep))
  }

  /** The vdevs that are not logs all have one level, and every group is uniform. */
  ghost predicate Consistent(top: seq<Top>) {
    GroupsUniform(top) && exists rep :: AllAre(top, rep)
  }

  predicate OnlyLogs(top: seq<Top>) {
    top == [] || (IsLog(top[0]) && OnlyLogs(top[1..]))
  }

  lemma {:induction false} UniformFrom(children: seq<Leaf>, c: nat, last: Option<Device>)
    requires c < |children|
    ensures Uniform(children[c..], last) <==>
            && Agrees(last, children[c].dev)
            && Uniform(children[c + 1..], if children[c].dev.size.Some? then Some(children[c].dev) else last)
  {
    assert children[c..][1..] == children[c + 1..];
  }

  /** The loop over the children of a mirror or raidz. */
  method CheckGroup(children: seq<Leaf>) returns (ok: bool)
    ensures ok == Uniform(children, None)
  {
    ok := true;
    var last: Option<Device> := None;
    var c := 0;
    assert children[0..] == children;
    while c < |children|
      invariant c <= |children| && (Uniform(children, None) <==> ok && Uniform(children[c..], last))
    {
      UniformFrom(children, c, last);
      var d := children[c].dev;
      if last.Some? && last.value.isFile != d.isFile {
        ok := false;
      }
      if d.size.Some? {
        if last.Some? && last.value.size.Some? &&
           (d.size.value > last.value.size.value + ZPOOL_FUZZ || last.value.size.value > d.size.value + ZPOOL_FUZZ) {
          ok := false;
        }
        last := Some(d);
      }
      c := c + 1;
    }
  }

  lemma GroupsFrom(top: seq<Top>, t: nat)
    requires t < |top|
    ensures GroupsUniform(top[t..]) <==>
            (IsLog(top[t]) || top[t].Single? || Uniform(top[t].children, None)) && GroupsUniform(top[t + 1..])
    ensures forall rep :: AllAre(top[t..], rep) <==> (IsLog(top[t]) || RepOf(top[t]) == rep) && AllAre(top[t + 1..], rep)
    ensures OnlyLogs(top[t..]) <==> IsLog(top[t]) && OnlyLogs(top[t + 1..])
  {
    assert top[t..][1..] == top[t + 1..];
  }

  /** get_replication: the common level, or none when a group is not uniform or two levels differ. Each vdev is only
      compared with the one before. */
  method GetReplication(top: seq<Top>) returns (r: Option<Rep>)
    requires !OnlyLogs(top)
    ensures r.Some? <==> Consistent(top)
    ensures r.Some? ==> AllAre(top, r.value)
  {
    var ok := true;
    var last: Option<Rep> := None;
    var t := 0;
    assert top[0..] == top;
    while t < |top|
      invariant t <= |top|
      invariant last.None? ==> ok && (OnlyLogs(top) <==> OnlyLogs(top[t..]))
      invariant last.None? ==> (GroupsUniform(top) <==> GroupsUniform(top[t..]))
      invariant last.None? ==> forall rep :: AllAre(top, rep) <==> AllAre(top[t..], rep)
      invariant last.Some? && ok ==> (GroupsUniform(top) <==> GroupsUniform(top[t..]))
      invariant last.Some? && ok ==> forall rep :: AllAre(top, rep) <==> rep == last.value && AllAre(top[t..], rep)
      invariant !ok ==> !Consistent(top)
    {
      GroupsFrom(top, t);
      if !IsLog(top[t]) {
        if top[t].Group? {
          var uniform := CheckGroup(top[t].children);
          ok := ok && uniform;
        }
        var rep := RepOf(top[t]);
        if last.Some? && last.value != rep {
          ok := false;
        }
        last := Some(rep);
      }
      t := t + 1;
    }
    assert top[t..] == [];
    assert ok ==> last.Some? && AllAre(top, last.value);
    r := if ok then last else None;
  }

  /** check_replication, for a new pool or for vdevs to be added to a pool. */
  method CheckReplication(config: Option<seq<Top>>, top: seq<Top>) returns (ok: bool)
    requires config.Some? ==> !OnlyLogs(config.value)
    ensures config.None? ==> (ok <==> OnlyLogs(top) || Consistent(top))
    ensures config.Some? ==>
              (ok <==> !Consistent(config.value) || OnlyLogs(top) || (Consistent(top) && SameLevel(config.value, top)))
  {
    var current: Option<Rep> := None;
    if config.Some? {
      current := GetReplication(config.value);
      if current.None? {
        return true;
      }
    }
    var logs := CountLogs(top);
    if logs == |top| {
      return true;
    }
    var new' := GetReplication(top);
    if new'.None? {
      return false;
    }
    ok := current.None? || current.value == new'.value;
    OneLevel(top, new'.value);
    if current.Some? {
      OneLevel(config.value, current.value);
    }
  }

  ghost predicate SameLevel(a: seq<Top>, b: seq<Top>) {
    exists rep :: AllAre(a, rep) && AllAre(b, rep)
  }

  method CountLogs(top: seq<Top>) returns (n: nat)
    ensures n <= |top| && (n == |top| <==> OnlyLogs(top))
  {
    n := 0;
    var t := 0;
    assert top[0..] == top;
    while t < |top|
      invariant n <= t <= |top| && (OnlyLogs(top) <==> n == t && OnlyLogs(top[t..]))
    {
      GroupsFrom(top, t);
      if IsLog(top[t]) {
        n := n + 1;
      }
      t := t + 1;
    }
  }

  /** There is only one common level. */
  lemma {:induction false} OneLevel(top: seq<Top>, rep: Rep)
    requires AllAre(top, rep) && !OnlyLogs(top)
    ensures forall other :: AllAre(top, other) ==> other == rep
  {
    if IsLog(top[0]) {
      OneLevel(top[1..], rep);
    }
  }

  lemma {:induction false} LevelAt(top: seq<Top>, rep: Rep, i: nat)
    requires AllAre(top, rep) && i < |top| && !IsLog(top[i])
    ensures RepOf(top[i]) == rep
  {
    if i > 0 {
      LevelAt(top[1..], rep, i - 1);
    }
  }

  /** In a pool that passes, any two top-level vdevs that are not logs are both single devices of one kind, or both
      mirrors, or both raidz of the same parity, and are equally wide. */
  lemma LevelsEqual(top: seq<Top>, i: nat, j: nat)
    requires Consistent(top) && i < |top| && j < |top| && !IsLog(top[i]) && !IsLog(top[j])
    ensures match (top[i], top[j])
            case (Single(a), Single(b)) => a.dev.isFile == b.dev.isFile
            case (Group(raidz, parity, children, _), Group(raidz', parity', children', _)) =>
              raidz == raidz' && (raidz ==> parity == parity') && |children| == |children'|
            case _ => false
  {
    var rep :| AllAre(top, rep);
    LevelAt(top, rep, i);
    LevelAt(top, rep, j);
  }

  // ----- files and disks in one group -----

  predicate OneKind(children: seq<Leaf>, isFile: bool) {
    children == [] || (children[0].dev.isFile == isFile && OneKind(children[1..], isFile))
  }

  /** When the size of the first device is known, a uniform group has devices of one kind. */
  lemma {:induction false} KnownMeansOneKind(children: seq<Leaf>, last: Device)
    requires Uniform(children, Some(last))
    ensures OneKind(children, last.isFile)
  {
    if children != [] {
      KnownMeansOneKind(children[1..], if children[0].dev.size.Some? then children[0].dev else last);
    }
  }

  /** The devices up to and including the first of known size are of this kind. */
  predicate PrefixOne(children: seq<Leaf>, isFile: bool) {
    children == [] ||
    (children[0].dev.isFile == isFile && (children[0].dev.size.Some? || PrefixOne(children[1..], isFile)))
  }

  /** In a group that passes, a mix of files and disks can only lie among the devices up to and including the first
      of known size: from there on the check has found every mix. */
  lemma {:induction false} MixDetected(children: seq<Leaf>, isFile: bool)
    requires Uniform(children, None)
    ensures OneKind(children, isFile) <==> PrefixOne(children, isFile)
  {
    if children != [] {
      if children[0].dev.size.Some? {
        KnownMeansOneKind(children[1..], children[0].dev);
      } else {
        MixDetected(children[1..], isFile);
      }
    }
  }

  /** Devices of unknown size at the front make no difference to the check, be they files or disks. */
  lemma {:induction false} PrefixIgnored(unknown: seq<Leaf>, children: seq<Leaf>)
    requires forall i :: 0 <= i < |unknown| ==> unknown[i].dev.size.None?
    ensures Uniform(unknown + children, None) <==> Uniform(children, None)
  {
    if unknown == [] {
      assert unknown + children == children;
    } else {
      PrefixIgnored(unknown[1..], children);
      assert (unknown + children)[1..] == unknown[1..] + children;
    }
  }

  /** A file whose size is unknown and a disk pass as a mirror or raidz. */
  lemma MixAccepted(unknown: Leaf, known: Leaf)
    requires unknown.dev.isFile && unknown.dev.size.None? && !known.dev.isFile && known.dev.size.Some?
    ensures Uniform([unknown, known], None) && !OneKind([unknown, known], true) && !OneKind([unknown, known], false)
  {
    assert [unknown, known][1..] == [known] && [known][1..] == [];
  }

  // ----- sizes in one group -----

  predicate Near(a: nat, b: nat, steps: nat) {
    a <= b + steps * ZPOOL_FUZZ && b <= a + steps * ZPOOL_FUZZ
  }

  lemma {:induction false} DriftFrom(children: seq<Leaf>, last: Device, j: nat)
    requires Uniform(children, Some(last)) && last.size.Some? && j < |children| && children[j].dev.size.Some?
    ensures Near(last.size.value, children[j].dev.size.value, j + 1)
  {
    if j > 0 {
      DriftFrom(children[1..], if children[0].dev.size.Some? then children[0].dev else last, j - 1);
    }
  }

  /** Sizes are only compared with the last known one, so two sizes in a group that passes are within one tolerance
      for every place between them. */
  lemma {:induction false} SizeDrift(children: seq<Leaf>, last: Option<Device>, i: nat, j: nat)
    requires Uniform(children, last) && i < j < |children|
    requires children[i].dev.size.Some? && children[j].dev.size.Some?
    ensures Near(children[i].dev.size.value, children[j].dev.size.value, j - i)
  {
    if i == 0 {
      DriftFrom(children[1..], children[0].dev, j - 1);
    } else {
      SizeDrift(children[1..], if children[0].dev.size.Some? then Some(children[0].dev) else last, i - 1, j - 1);
    }
  }

  /** The disk number `i` of a group whose disks grow by one tolerance each. */
  function Growing(i: nat): Leaf {
    Leaf("", Device(false, Some(i * ZPOOL_FUZZ)), false)
  }

  function GrowingFrom(i: nat, n: nat): seq<Leaf>
    decreases n
  {
    if n == 0 then [] else [Growing(i)] + GrowingFrom(i + 1, n - 1)
  }

  /** The bound is sharp: such a group passes, and its ends are that far apart. */
  lemma {:induction false} DriftAccepted(i: nat, n: nat, last: Option<Device>)
    requires last == None || (i > 0 && last == Some(Growing(i - 1).dev))
    ensures Uniform(GrowingFrom(i, n), last) && |GrowingFrom(i, n)| == n
    ensures n > 0 ==> GrowingFrom(i, n)[0] == Growing(i) && GrowingFrom(i, n)[n - 1] == Growing(i + n - 1)
    decreases n
  {
    if n > 0 {
      DriftAccepted(i + 1, n - 1, Some(Growing(i).dev));
      assert GrowingFrom(i, n)[1..] == GrowingFrom(i + 1, n - 1);
    }
  }

  /** Three disks of 16, 32 and 48 megabytes pass, although the ends differ by twice the tolerance. */
  lemma DriftOfThree()
    ensures var group := [Growing(1), Growing(2), Growing(3)];
            Uniform(group, None) && group[2].dev.size.value - group[0].dev.size.value == 2 * ZPOOL_FUZZ
  {
    var group := [Growing(1), Growing(2), Growing(3)];
    DriftAccepted(1, 3, None);
    assert GrowingFrom(4, 0) == [] && GrowingFrom(3, 1) == [Growing(3)] && GrowingFrom(2, 2) == group[1..];
    assert GrowingFrom(1, 3) == group;
  }
}
