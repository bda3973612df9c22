/**
 zfs_acl_chmod on the chunked list: the walk, and the canonical six at the end. It is proved equal to the rewriting of
 the plain sequence, and to terminate although a split moves the cursor back.
 */
module AclChmodList {
  import opened AclModel
  import opened AclList
  import opened AclCursor

  lemma {:induction false} RewriteStep(out: Acl, held: Held, a: Ace, tail: Acl, aclmode: AclMode, mode: Mode,
                                       owner: nat)
    ensures var out' := out + Front(held, a, aclmode, mode, owner);
            out + Rewrite(held, [a] + tail, aclmode, mode, owner) ==
              if NeedsSplit(a) then out' + Rewrite(None, [ActiveHalf(a)] + tail, aclmode, mode, owner)
              else out' + Rewrite(NextHeld(held, a, aclmode, mode, owner), tail, aclmode, mode, owner)
  {
    assert ([a] + tail)[1..] == tail;
  }

  lemma {:induction false} TailCountStep(held: Held, a: Ace, tail: Acl, last: nat, aclmode: AclMode, mode: Mode,
                                         owner: nat)
    ensures var last' := if Inserts(held, a, aclmode) then Min(last, |tail| + 1) else last;
            TailCount(held, [a] + tail, last, aclmode, mode, owner) ==
              if NeedsSplit(a) then TailCount(None, [ActiveHalf(a)] + tail, last', aclmode, mode, owner)
              else TailCount(NextHeld(held, a, aclmode, mode, owner), tail, last', aclmode, mode, owner)
  {
    assert ([a] + tail)[1..] == tail;
  }

  /** Fetches the next entry of the walk. */
  method Fetch(list: ChunkedAcl, start: Link, ghost out: Acl, ghost held: Held, ghost rest: Acl) returns (acep: Link)
    requires list.Valid() && list.Between(out, held, rest, start)
    requires if start.Null? then out == [] && held.None? else list.Visited(out, held, rest, start.addr)
    modifies list`nodes, list`curr, list`nextAce, list`passed
    ensures list.Valid() && LastCount(list.nodes) == old(LastCount(list.nodes)) && list.Between(out, held, rest, start)
    ensures rest == [] ==> acep.Null?
    ensures rest != [] ==> acep.At? && list.Visiting(out, held, rest[0], rest[1..], start, acep.addr)
  {
    acep := list.NextAce(start);
    if rest != [] {
      assert [rest[0]] + rest[1..] == rest;
      assert list.contents[|out| + |Push(held, [])|] == rest[0];
    }
  }

  /** One entry of the walk: what it will have written in the end does not change, and less is left to do. */
  method Turn(list: ChunkedAcl, acep: nat, prev: Link, aclmode: AclMode, mode: Mode, owner: nat,
              ghost out: Acl, ghost held: Held, ghost rest: Acl)
    returns (next: Link, ghost out': Acl, ghost held': Held, ghost rest': Acl)
    requires list.Valid() && rest != [] && list.Visiting(out, held, rest[0], rest[1..], prev, acep)
    modifies list
    ensures list.Valid() && list.Between(out', held', rest', At(acep))
    ensures out' + Rewrite(held', rest', aclmode, mode, owner) == out + Rewrite(held, rest, aclmode, mode, owner)
    ensures TailCount(held', rest', LastCount(list.nodes), aclmode, mode, owner) ==
            TailCount(held, rest, old(LastCount(list.nodes)), aclmode, mode, owner)
    ensures rest' == [] ==> next.Null?
    ensures rest' != [] ==> next.At? && list.Visiting(out', held', rest'[0], rest'[1..], At(acep), next.addr)
    ensures |rest'| < |rest| || (|rest'| == |rest| && NeedsSplit(rest[0]) && !NeedsSplit(rest'[0]))
  {
    ghost var a, tail := rest[0], rest[1..];
    assert rest == [a] + tail;
    RewriteStep(out, held, a, tail, aclmode, mode, owner);
    TailCountStep(held, a, tail, LastCount(list.nodes), aclmode, mode, owner);
    list.Visit(acep, prev, aclmode, mode, owner, out, held, a, tail);
    out' := out + Front(held, a, aclmode, mode, owner);
    held' := if NeedsSplit(a) then None else NextHeld(held, a, aclmode, mode, owner);
    rest' := if NeedsSplit(a) then [ActiveHalf(a)] + tail else tail;
    next := Fetch(list, At(acep), out', held', rest');
  }

  method Walk(list: ChunkedAcl, aclmode: AclMode, mode: Mode, owner: nat)
    requires list.Valid()
    modifies list
    ensures list.Valid() && list.contents == Rewrite(None, old(list.contents), aclmode, mode, owner)
    ensures LastCount(list.nodes) ==
            TailCount(None, old(list.contents), old(LastCount(list.nodes)), aclmode, mode, owner)
  {
    ghost var out: Acl, held: Held, rest := [], None, list.contents;
    var prev := Null;
    var acep := Fetch(list, Null, out, held, rest);
    while acep.At?
      invariant list.Valid() && list.Between(out, held, rest, prev)
      invariant out + Rewrite(held, rest, aclmode, mode, owner) == Rewrite(None, old(list.contents), aclmode, mode, owner)
      invariant TailCount(held, rest, LastCount(list.nodes), aclmode, mode, owner) ==
                TailCount(None, old(list.contents), old(LastCount(list.nodes)), aclmode, mode, owner)
      invariant acep.Null? ==> rest == []
      invariant acep.At? ==> rest != [] && list.Visiting(out, held, rest[0], rest[1..], prev, acep.addr)
      decreases |rest|, rest != [] && NeedsSplit(rest[0])
    {
      var next: Link;
      next, out, held, rest := Turn(list, acep.addr, prev, aclmode, mode, owner, out, held, rest);
      prev, acep := acep, next;
    }
  }

  /** The last entries of the last chunk are the last entries of the list. */
  lemma {:induction false} TailAt(nodes: seq<Node>, i: nat)
    requires 1 <= i <= LastCount(nodes)
    ensures i <= |Addresses(nodes)|
    ensures Addresses(nodes)[|Addresses(nodes)| - i] == nodes[|nodes| - 1].start + nodes[|nodes| - 1].count - i
  {
    AddressesAround(nodes, |nodes| - 1);
    assert nodes[|nodes|..] == [];
  }

  lemma {:induction false} TailEntry(nodes: seq<Node>, mem: seq<Ace>, i: nat)
    requires 1 <= i <= LastCount(nodes) && InMemory(Addresses(nodes), |mem|)
    ensures i <= |Addresses(nodes)| && nodes[|nodes| - 1].start + nodes[|nodes| - 1].count - i < |mem|
    ensures Load(mem, Addresses(nodes))[|Addresses(nodes)| - i] ==
            mem[nodes[|nodes| - 1].start + nodes[|nodes| - 1].count - i]
  {
    TailAt(nodes, i);
  }

  lemma {:induction false} TailLoaded(nodes: seq<Node>, mem: seq<Ace>, contents: Acl)
    requires InMemory(Addresses(nodes), |mem|) && contents == Load(mem, Addresses(nodes)) && LastCount(nodes) >= 6
    ensures var acep := nodes[|nodes| - 1].start + nodes[|nodes| - 1].count - 6;
            acep + 6 <= |mem| && |contents| >= 6 && mem[acep..acep + 6] == contents[|contents| - 6..]
  {
    TailEntry(nodes, mem, 6);
    TailEntry(nodes, mem, 1);
    var acep := nodes[|nodes| - 1].start + nodes[|nodes| - 1].count - 6;
    var stored, listed := mem[acep..acep + 6], contents[|contents| - 6..];
    forall i | 0 <= i < 6 ensures stored[i] == listed[i] {
      TailEntry(nodes, mem, 6 - i);
    }
  }

  /** zfs_have_canonical_six, with the test for six entries in front of its call. */
  method HaveCanonicalSix(list: ChunkedAcl) returns (have: bool)
    requires list.Valid()
    ensures have == HasCanonicalSix(list.contents, LastCount(list.nodes))
  {
    have := false;
    CountIsLength(list.nodes);
    if list.count >= 6 && LastCount(list.nodes) >= 6 {
      TailLoaded(list.nodes, list.mem, list.contents);
      var n := list.nodes[|list.nodes| - 1];
      have := IsSix(list.mem[n.start + n.count - 6..n.start + n.count]);
    }
  }

  /** adjust_ace_pair_common on the pair at position `p`. */
  method AdjustPair(list: ChunkedAcl, acep: nat, c: Rwx, ghost p: nat)
    requires list.Valid() && p + 1 < |list.addrs| && acep == list.addrs[p] && acep + 1 == list.addrs[p + 1]
    modifies list`mem, list`contents
    ensures list.Valid()
    ensures list.contents ==
            old(list.contents)[p := AdjustDeny(old(list.contents)[p], c)][p + 1 := AdjustAllow(old(list.contents)[p + 1], c)]
  {
    list.Store(acep, AdjustDeny(list.mem[acep], c), p);
    list.Store(acep + 1, AdjustAllow(list.mem[acep + 1], c), p + 1);
  }

  lemma SixUpdates(pre: Acl, six: Acl, mode: Mode)
    requires |six| == 6
    ensures var p, acl, fixed := |pre|, pre + six, FixSix(six, mode);
            acl[p := fixed[0]][p + 1 := fixed[1]][p + 2 := fixed[2]][p + 3 := fixed[3]][p + 4 := fixed[4]][p + 5 := fixed[5]]
              == pre + fixed
  {
  }

  /** The addresses of the last six entries. */
  lemma {:induction false} SixAddresses(nodes: seq<Node>, addrs: seq<nat>, acep: nat)
    requires addrs == Addresses(nodes) && LastCount(nodes) >= 6
    requires acep == nodes[|nodes| - 1].start + nodes[|nodes| - 1].count - 6
    ensures |addrs| >= 6
    ensures addrs[|addrs| - 6] == acep && addrs[|addrs| - 5] == acep + 1 && addrs[|addrs| - 4] == acep + 2
    ensures addrs[|addrs| - 3] == acep + 3 && addrs[|addrs| - 2] == acep + 4 && addrs[|addrs| - 1] == acep + 5
  {
    TailAt(nodes, 6);
    TailAt(nodes, 5);
    TailAt(nodes, 4);
    TailAt(nodes, 3);
    TailAt(nodes, 2);
    TailAt(nodes, 1);
  }

  /** zfs_acl_fixup_canonical_six. */
  method FixupCanonicalSix(list: ChunkedAcl, mode: Mode)
    requires list.Valid() && LastCount(list.nodes) >= 6
    modifies list`mem, list`contents
    ensures list.Valid() && |list.contents| == old(|list.contents|) >= 6
    ensures list.contents ==
            old(list.contents)[..|list.contents| - 6] + FixSix(old(list.contents)[|list.contents| - 6..], mode)
  {
    var acep := list.nodes[|list.nodes| - 1].start + list.nodes[|list.nodes| - 1].count - 6;
    SixAddresses(list.nodes, list.addrs, acep);
    ghost var p := |list.addrs| - 6;
    ghost var pre, six := list.contents[..p], list.contents[p..];
    assert list.contents == pre + six;
    SixUpdates(pre, six, mode);
    AdjustPair(list, acep, mode.user, p);
    AdjustPair(list, acep + 2, mode.group, p + 2);
    AdjustPair(list, acep + 4, mode.other, p + 4);
  }

  lemma {:induction false} DistinctAppend(a: seq<nat>, b: seq<nat>, size: nat)
    requires Distinct(a) && Distinct(b) && InMemory(a, size) && forall i :: 0 <= i < |b| ==> b[i] >= size
    ensures Distinct(a + b)
  {
    if a == [] {
      assert a + b == b;
    } else {
      assert (a + b)[1..] == a[1..] + b;
      DistinctAppend(a[1..], b, size);
    }
  }

  lemma LoadAppend(mem: seq<Ace>, addrs: seq<nat>, six: Acl)
    requires InMemory(addrs, |mem|)
    ensures InMemory(addrs + Run(|mem|, |six|), |mem + six|)
    ensures Load(mem + six, addrs + Run(|mem|, |six|)) == Load(mem, addrs) + six
  {
  }

  /** A chunk of six new entries at the end. */
  lemma {:induction false} AppendChunk(nodes: seq<Node>, mem: seq<Ace>, six: Acl, n: Node)
    requires Sound(nodes, mem) && |six| == 6 && n == Node(|mem|, 6, SizeOf(mem + six, |mem|, 6), 0)
    ensures Sound(nodes + [n], mem + six) && TotalCount(nodes + [n]) == TotalCount(nodes) + 6
    ensures TotalSize(nodes + [n]) == TotalSize(nodes) + n.size
    ensures Load(mem + six, Addresses(nodes + [n])) == Load(mem, Addresses(nodes)) + six
  {
    AddressesAppend(nodes, [n]);
    AddressesOne(n);
    LoadAppend(mem, Addresses(nodes), six);
    RunDistinct(|mem|, 6);
    DistinctAppend(Addresses(nodes), Run(|mem|, 6), |mem|);
    SizedSame(nodes, mem, mem + six);
    SizedAppend(nodes, [n], mem + six);
    assert [n][1..] == [];
  }

  method AppendSix(list: ChunkedAcl)
    requires list.Valid()
    modifies list`mem, list`nodes, list`count, list`bytes, list`addrs, list`contents
    ensures list.Valid() && list.contents == old(list.contents) + FRESH_SIX && LastCount(list.nodes) == 6
  {
    var mem' := list.mem + FRESH_SIX;
    var n := Node(|list.mem|, 6, SizeOf(mem', |list.mem|, 6), 0);
    AppendChunk(list.nodes, list.mem, FRESH_SIX, n);
    list.addrs, list.contents := Addresses(list.nodes + [n]), list.contents + FRESH_SIX;
    list.mem, list.nodes, list.count, list.bytes := mem', list.nodes + [n], list.count + 6, list.bytes + n.size;
  }

  /** zfs_acl_release_nodes. */
  method ReleaseNodes(list: ChunkedAcl)
    modifies list`nodes, list`count, list`bytes, list`addrs, list`contents
    ensures list.Valid() && list.contents == [] && list.nodes == []
  {
    list.nodes, list.count, list.bytes, list.addrs, list.contents := [], 0, 0, [], [];
  }

  /** Closes the list with the canonical six, reusing those that are there. */
  method Close(list: ChunkedAcl, mode: Mode)
    requires list.Valid()
    modifies list`mem, list`nodes, list`count, list`bytes, list`addrs, list`contents
    ensures list.Valid()
    ensures list.contents == CloseWithSix(old(list.contents), old(LastCount(list.nodes)), mode)
  {
    ghost var acl := list.contents;
    var have := HaveCanonicalSix(list);
    if !have {
      AppendSix(list);
      assert (acl + FRESH_SIX)[|acl|..] == FRESH_SIX && (acl + FRESH_SIX)[..|acl|] == acl;
    }
    FixupCanonicalSix(list, mode);
  }

  /** The counters are the number and the size of the entries. */
  lemma Totals(list: ChunkedAcl)
    requires list.Valid()
    ensures list.count == |list.contents| && list.bytes == Bytes(list.contents)
  {
    CountIsLength(list.nodes);
    SizeIsBytes(list.nodes, list.mem);
  }

  /** zfs_acl_chmod: the list holds what rewriting the plain sequence gives, and its counters are right. */
  method ChmodList(list: ChunkedAcl, aclmode: AclMode, mode: Mode, owner: nat)
    requires list.Valid()
    modifies list
    ensures list.Valid()
    ensures list.contents == Chmod(old(list.contents), old(LastCount(list.nodes)), aclmode, mode, owner)
    ensures list.count == |list.contents| && list.bytes == Bytes(list.contents)
  {
    if aclmode == Discard {
      ReleaseNodes(list);
    }
    Walk(list, aclmode, mode, owner);
    Close(list, mode);
    Totals(list);
  }
}
