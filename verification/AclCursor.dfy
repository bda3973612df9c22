/**
 The chunked ACL as the kernel updates it: a walk with a cursor, insertion at the cursor, and chmod. The class is
 proved to refine the plain sequence of entries.
 */
module AclCursor {
  import opened AclModel
  import opened AclList

  function LastCount(nodes: seq<Node>): nat {
    if nodes == [] then 0 else nodes[|nodes| - 1].count
  }

  /** Only the first chunk may be empty. */
  predicate Filled(nodes: seq<Node>) {
    forall k :: 0 < k < |nodes| ==> nodes[k].count > 0
  }

  ghost predicate Sound(nodes: seq<Node>, mem: seq<Ace>) {
    && Sized(nodes, mem) && Filled(nodes)
    && InMemory(Addresses(nodes), |mem|) && Distinct(Addresses(nodes))
  }

  function CountBefore(nodes: seq<Node>, k: nat): nat
    requires k <= |nodes|
  {
    if k == 0 then 0 else CountBefore(nodes, k - 1) + nodes[k - 1].count
  }

  /** How many entries the cursor has passed. */
  function Passed(nodes: seq<Node>, curr: nat): nat
    requires curr < |nodes|
  {
    CountBefore(nodes, curr) + nodes[curr].idx
  }

  lemma {:induction false} CountBeforeIsLength(nodes: seq<Node>, k: nat)
    requires k <= |nodes|
    ensures CountBefore(nodes, k) == |Addresses(nodes[..k])|
  {
    if k > 0 {
      CountBeforeIsLength(nodes, k - 1);
      assert nodes[..k] == nodes[..k - 1] + [nodes[k - 1]];
      AddressesAppend(nodes[..k - 1], [nodes[k - 1]]);
      AddressesOne(nodes[k - 1]);
    }
  }

  lemma {:induction false} CountBeforeSame(nodes: seq<Node>, nodes': seq<Node>, k: nat)
    requires k <= |nodes| && k <= |nodes'|
    requires forall i :: 0 <= i < k ==> nodes[i].count == nodes'[i].count
    ensures CountBefore(nodes', k) == CountBefore(nodes, k)
  {
    if k > 0 {
      CountBeforeSame(nodes, nodes', k - 1);
    }
  }

  predicate Placed(nodes: seq<Node>, curr: nat, nextAce: nat) {
    curr < |nodes| && nodes[curr].idx <= nodes[curr].count && nextAce == nodes[curr].start + nodes[curr].idx
  }

  /** The cursor has just returned the entry at `acep`. */
  predicate OnEntry(nodes: seq<Node>, curr: nat, nextAce: nat, acep: nat) {
    Placed(nodes, curr, nextAce) && 1 <= nodes[curr].idx && nextAce == acep + 1
  }

  function SetIdx(nodes: seq<Node>, k: nat, idx: nat): seq<Node>
    requires k < |nodes|
  {
    nodes[k := nodes[k].(idx := idx)]
  }

  lemma {:induction false} SetIdxSame(nodes: seq<Node>, k: nat, idx: nat, mem: seq<Ace>)
    requires k < |nodes|
    ensures Addresses(SetIdx(nodes, k, idx)) == Addresses(nodes)
    ensures Sized(SetIdx(nodes, k, idx), mem) == Sized(nodes, mem)
    ensures TotalCount(SetIdx(nodes, k, idx)) == TotalCount(nodes)
    ensures TotalSize(SetIdx(nodes, k, idx)) == TotalSize(nodes)
  {
    var nodes' := SetIdx(nodes, k, idx);
    if k == 0 {
      assert nodes'[1..] == nodes[1..];
    } else {
      assert nodes'[1..] == SetIdx(nodes[1..], k - 1, idx);
      SetIdxSame(nodes[1..], k - 1, idx, mem);
    }
  }

  lemma {:induction false} SetIdxSound(nodes: seq<Node>, k: nat, idx: nat, mem: seq<Ace>)
    requires k < |nodes| && Sound(nodes, mem)
    ensures Sound(SetIdx(nodes, k, idx), mem) && LastCount(SetIdx(nodes, k, idx)) == LastCount(nodes)
    ensures Passed(SetIdx(nodes, k, idx), k) == CountBefore(nodes, k) + idx
  {
    SetIdxSame(nodes, k, idx, mem);
    CountBeforeSame(nodes, SetIdx(nodes, k, idx), k);
  }

  /** Where the cursor stands in the sequence of addresses. */
  lemma {:induction false} CursorAddress(nodes: seq<Node>, k: nat)
    requires k < |nodes| && nodes[k].idx <= nodes[k].count
    ensures Passed(nodes, k) <= |Addresses(nodes)|
    ensures nodes[k].idx < nodes[k].count ==>
              Passed(nodes, k) < |Addresses(nodes)| &&
              Addresses(nodes)[Passed(nodes, k)] == nodes[k].start + nodes[k].idx
    ensures 1 <= nodes[k].idx ==>
              Addresses(nodes)[Passed(nodes, k) - 1] == nodes[k].start + nodes[k].idx - 1
  {
    AddressesAround(nodes, k);
    CountBeforeIsLength(nodes, k);
  }

  lemma {:induction false} CountOfAll(nodes: seq<Node>)
    ensures CountBefore(nodes, |nodes|) == |Addresses(nodes)|
  {
    CountBeforeIsLength(nodes, |nodes|);
    assert nodes[..|nodes|] == nodes;
  }

  /** The entries behind the cursor's entry, itself included, and the last chunk: the current chunk is cut there. */
  lemma {:induction false} LastAfterOpening(before: seq<Node>, n: Node, after: seq<Node>, added: Node, head: nat)
    requires 1 <= n.idx <= n.count && head <= n.size && added.count == 1
    ensures var nodes, nodes' := before + ([n] + after), before + (Opened(n, added, head) + after);
            && |Addresses(before)| + n.idx <= |Addresses(nodes)|
            && LastCount(nodes') == Min(LastCount(nodes), |Addresses(nodes)| - (|Addresses(before)| + n.idx - 1))
  {
    AddressesAppend(before, [n] + after);
    AddressesAppend([n], after);
    AddressesOne(n);
    if after != [] {
      CountOfAll(after);
    }
  }

  lemma FilledOpening(before: seq<Node>, n: Node, after: seq<Node>, added: Node, head: nat)
    requires 1 <= n.idx <= n.count && head <= n.size && added.count == 1
    requires Filled(before + ([n] + after))
    ensures Filled(before + (Opened(n, added, head) + after))
  {
    var nodes, nodes', mid := before + ([n] + after), before + (Opened(n, added, head) + after), Opened(n, added, head);
    forall k | 0 < k < |nodes'| ensures nodes'[k].count > 0 {
      if k < |before| {
        assert nodes'[k] == nodes[k];
      } else if k < |before| + |mid| {
        assert nodes'[k] == mid[k - |before|];
      } else {
        assert nodes'[k] == after[k - |before| - |mid|] == nodes[k - |mid| + 1];
      }
    }
  }

  lemma {:induction false} ChunkInMemory(nodes: seq<Node>, k: nat, mem: seq<Ace>)
    requires k < |nodes| && Sized(nodes, mem)
    ensures nodes[k].start + nodes[k].count <= |mem|
    ensures nodes[k].size == SizeOf(mem, nodes[k].start, nodes[k].count)
  {
    if k > 0 {
      ChunkInMemory(nodes[1..], k - 1, mem);
    }
  }

  /** After the insertion the cursor stands on the same entry, one further down the list. */
  lemma {:induction false} OpenedPrefix(before: seq<Node>, n: Node, after: seq<Node>, added: Node, head: nat)
    requires 1 <= n.idx <= n.count && head <= n.size && added.count == 1
    ensures var nodes' := before + (Opened(n, added, head) + after);
            var curr := |before| + if n.idx == 1 then 1 else 2;
            && nodes'[curr].start + nodes'[curr].idx == n.start + n.idx
            && 1 <= nodes'[curr].idx <= nodes'[curr].count
            && Passed(nodes', curr) == |Addresses(before)| + n.idx + 1
  {
    var nodes', mid := before + (Opened(n, added, head) + after), Opened(n, added, head);
    var curr := |before| + if n.idx == 1 then 1 else 2;
    assert nodes'[curr] == mid[|mid| - 1];
    CountBeforeIsLength(nodes', curr);
    assert nodes'[..curr] == before + mid[..|mid| - 1];
    AddressesAppend(before, mid[..|mid| - 1]);
    AddressesOne(added);
    if n.idx == 1 {
      assert mid[..|mid| - 1] == [added];
    } else {
      var front := mid[0];
      assert mid[..|mid| - 1] == [front] + [added];
      AddressesAppend([front], [added]);
      AddressesOne(front);
    }
  }

  function WithEntry(nodes: seq<Node>, k: nat, added: Node, head: nat): seq<Node>
    requires k < |nodes| && 1 <= nodes[k].idx <= nodes[k].count && head <= nodes[k].size
  {
    nodes[..k] + (Opened(nodes[k], added, head) + nodes[k + 1..])
  }

  function WithEntryAt(n: Node, k: nat): nat {
    if n.idx == 1 then k + 1 else k + 2
  }

  /** The bytes in front of the current entry of its chunk. */
  function HeadSize(nodes: seq<Node>, k: nat, mem: seq<Ace>): (head: nat)
    requires k < |nodes| && 1 <= nodes[k].idx <= nodes[k].count && Sized(nodes, mem)
    ensures head <= nodes[k].size
  {
    ChunkInMemory(nodes, k, mem);
    SizeOfSplit(mem, nodes[k].start, nodes[k].count, nodes[k].idx - 1);
    SizeOf(mem, nodes[k].start, nodes[k].idx - 1)
  }

  lemma {:induction false} AroundChunk(nodes: seq<Node>, k: nat)
    requires k < |nodes|
    ensures nodes == nodes[..k] + ([nodes[k]] + nodes[k + 1..]) && CountBefore(nodes, k) == |Addresses(nodes[..k])|
  {
    CountBeforeIsLength(nodes, k);
  }

  /** The new entry is in the list, directly before the current one; nothing else moved. */
  lemma {:induction false} WithEntryAddresses(nodes: seq<Node>, k: nat, added: Node, head: nat)
    requires k < |nodes| && 1 <= nodes[k].idx <= nodes[k].count && head <= nodes[k].size && added.count == 1
    ensures var nodes', p := WithEntry(nodes, k, added, head), Passed(nodes, k) - 1;
            p < |Addresses(nodes)| && Addresses(nodes') == InsertAt(Addresses(nodes), p, added.start)
  {
    AroundChunk(nodes, k);
    OpenedInList(nodes[..k], nodes[k], nodes[k + 1..], added, head);
  }

  lemma {:induction false} WithEntryLast(nodes: seq<Node>, k: nat, added: Node, head: nat)
    requires k < |nodes| && 1 <= nodes[k].idx <= nodes[k].count && head <= nodes[k].size && added.count == 1
    requires Filled(nodes) && Passed(nodes, k) <= |Addresses(nodes)|
    ensures Filled(WithEntry(nodes, k, added, head))
    ensures LastCount(WithEntry(nodes, k, added, head)) ==
            Min(LastCount(nodes), |Addresses(nodes)| - Passed(nodes, k) + 1)
  {
    AroundChunk(nodes, k);
    LastAfterOpening(nodes[..k], nodes[k], nodes[k + 1..], added, head);
    FilledOpening(nodes[..k], nodes[k], nodes[k + 1..], added, head);
  }

  lemma {:induction false} WithEntryContents(addrs: seq<nat>, mem: seq<Ace>, p: nat, a: Ace)
    requires p < |addrs| && InMemory(addrs, |mem|) && Distinct(addrs)
    ensures var addrs' := InsertAt(addrs, p, |mem|);
            && InMemory(addrs', |mem + [a]|) && Distinct(addrs')
            && Load(mem + [a], addrs') == InsertAt(Load(mem, addrs), p, a)
  {
    LoadInsert(mem, addrs, p, a);
    DistinctInsert(addrs, p, |mem|);
  }

  /** Allocating an entry leaves the sizes of what is in memory alone. */
  lemma {:induction false} SizesAfterAlloc(nodes: seq<Node>, mem: seq<Ace>, k: nat, a: Ace)
    requires k < |nodes| && 1 <= nodes[k].idx <= nodes[k].count && Sized(nodes, mem)
    ensures nodes[k].start + nodes[k].count <= |mem| && Sized(nodes, mem + [a])
    ensures SizeOf(mem + [a], nodes[k].start, nodes[k].idx - 1) == HeadSize(nodes, k, mem)
  {
    ChunkInMemory(nodes, k, mem);
    SizedSame(nodes, mem, mem + [a]);
    SizeOfSame(mem, mem + [a], nodes[k].start, nodes[k].idx - 1);
  }

  lemma {:induction false} WithEntrySizes(nodes: seq<Node>, mem: seq<Ace>, k: nat, a: Ace, head: nat)
    requires k < |nodes| && 1 <= nodes[k].idx <= nodes[k].count && Sized(nodes, mem)
    requires head == HeadSize(nodes, k, mem)
    ensures var nodes' := WithEntry(nodes, k, Node(|mem|, 1, Size(a), 0), head);
            && Sized(nodes', mem + [a]) && TotalCount(nodes') == TotalCount(nodes) + 1
            && TotalSize(nodes') == TotalSize(nodes) + Size(a)
  {
    var n, before, after, mem' := nodes[k], nodes[..k], nodes[k + 1..], mem + [a];
    SizesAfterAlloc(nodes, mem, k, a);
    assert nodes == before + ([n] + after);
    OpenedSizesInList(before, n, after, Node(|mem|, 1, Size(a), 0), mem', head);
  }

  lemma WithEntryCursor(nodes: seq<Node>, size: nat, k: nat, a: Ace, head: nat, acep: nat)
    requires OnEntry(nodes, k, acep + 1, acep) && head <= nodes[k].size
    ensures var nodes' := WithEntry(nodes, k, Node(size, 1, Size(a), 0), head);
            && OnEntry(nodes', WithEntryAt(nodes[k], k), acep + 1, acep)
            && Passed(nodes', WithEntryAt(nodes[k], k)) == Passed(nodes, k) + 1
  {
    CountBeforeIsLength(nodes, k);
    OpenedPrefix(nodes[..k], nodes[k], nodes[k + 1..], Node(size, 1, Size(a), 0), head);
  }

  /** The chunk list with a new one-entry chunk before the current entry, and the chunk that now holds that entry. */
  method OpenChunk(nodes: seq<Node>, mem: seq<Ace>, k: nat, a: Ace, acep: nat) returns (nodes': seq<Node>, k': nat)
    requires Sound(nodes, mem) && OnEntry(nodes, k, acep + 1, acep)
    ensures Sound(nodes', mem + [a]) && OnEntry(nodes', k', acep + 1, acep)
    ensures TotalCount(nodes') == TotalCount(nodes) + 1 && TotalSize(nodes') == TotalSize(nodes) + Size(a)
    ensures Passed(nodes', k') == Passed(nodes, k) + 1 && 0 < Passed(nodes, k) <= |Addresses(nodes)|
    ensures Addresses(nodes') == InsertAt(Addresses(nodes), Passed(nodes, k) - 1, |mem|)
    ensures Load(mem + [a], Addresses(nodes')) == InsertAt(Load(mem, Addresses(nodes)), Passed(nodes, k) - 1, a)
    ensures LastCount(nodes') == Min(LastCount(nodes), |Addresses(nodes)| - Passed(nodes, k) + 1)
  {
    var head := HeadSize(nodes, k, mem);
    nodes' := WithEntry(nodes, k, Node(|mem|, 1, Size(a), 0), head);
    k' := WithEntryAt(nodes[k], k);
    WithEntryAddresses(nodes, k, Node(|mem|, 1, Size(a), 0), head);
    WithEntryLast(nodes, k, Node(|mem|, 1, Size(a), 0), head);
    WithEntryContents(Addresses(nodes), mem, Passed(nodes, k) - 1, a);
    WithEntrySizes(nodes, mem, k, a, head);
    WithEntryCursor(nodes, |mem|, k, a, head, acep);
  }

  class ChunkedAcl {
    var mem: seq<Ace>
    var nodes: seq<Node>
    var curr: nat
    var nextAce: nat
    var count: nat
    var bytes: nat

    /** The addresses of the entries in list order, the entries themselves, and how many the cursor has passed. */
    ghost var addrs: seq<nat>
    ghost var contents: Acl
    ghost var passed: nat

    ghost predicate Valid()
      reads this
    {
      && Sound(nodes, mem) && count == TotalCount(nodes) && bytes == TotalSize(nodes)
      && addrs == Addresses(nodes) && contents == Load(mem, addrs) && |contents| == |addrs|
    }

    /** The cursor is somewhere in the list. */
    ghost predicate Walking()
      reads this
    {
      Placed(nodes, curr, nextAce) && passed == Passed(nodes, curr)
    }

    /** The cursor has just returned the entry at `acep`. */
    ghost predicate On(acep: nat)
      reads this
    {
      Walking() && OnEntry(nodes, curr, nextAce, acep)
    }

    /** An ACL as it is read back from disk is one chunk. */
    constructor (acl: Acl)
      ensures Valid() && contents == acl && LastCount(nodes) == |acl|
    {
      var n := Node(0, |acl|, Bytes(acl), 0);
      mem, nodes, curr, nextAce, count, bytes := acl, [n], 0, 0, |acl|, Bytes(acl);
      addrs, contents, passed := Run(0, |acl|), acl, 0;
      new;
      AddressesOne(n);
      RunDistinct(0, |acl|);
      assert Load(acl, Run(0, |acl|)) == acl;
      BytesOfRun(acl, 0, |acl|);
      assert nodes[1..] == [];
    }

    /** Stores over the entry at position `p`. */
    method Store(acep: nat, a: Ace, ghost p: nat)
      requires Valid() && p < |addrs| && acep == addrs[p] && Size(a) == Size(mem[acep])
      modifies `mem, `contents
      ensures Valid() && contents == old(contents)[p := a] && mem == old(mem)[acep := a]
    {
      StoreAt(mem, addrs, p, a);
      SizedSame(nodes, mem, mem[acep := a]);
      mem, contents := mem[acep := a], contents[p := a];
    }

    /** Moves the cursor within the current chunk. */
    method SetCursor(idx: nat)
      requires Valid() && curr < |nodes| && idx <= nodes[curr].count
      modifies `nodes, `nextAce, `passed
      ensures Valid() && Walking() && LastCount(nodes) == old(LastCount(nodes))
      ensures nodes[curr] == old(nodes[curr]).(idx := idx) && |nodes| == old(|nodes|)
      ensures passed == old(CountBefore(nodes, curr)) + idx
    {
      SetIdxSame(nodes, curr, idx, mem);
      SetIdxSound(nodes, curr, idx, mem);
      nodes := SetIdx(nodes, curr, idx);
      nextAce, passed := nodes[curr].start + idx, Passed(nodes, curr);
    }

    /** Brings the cursor to the chunk of the next entry, if there is one. */
    method Seek(start: Link) returns (found: bool)
      requires Valid() && (start.At? ==> Walking())
      modifies `nodes, `curr, `nextAce, `passed
      ensures Valid() && LastCount(nodes) == old(LastCount(nodes))
      ensures var p := if start.Null? then 0 else old(passed);
              found == (p < |addrs|) && (found ==> Walking() && passed == p && nodes[curr].idx < nodes[curr].count)
    {
      if start.Null? {
        if nodes == [] {
          return false;
        }
        curr := 0;
        SetCursor(0);
      }
      CursorAddress(nodes, curr);
      if nodes[curr].idx >= nodes[curr].count {
        CountOfAll(nodes);
        if curr + 1 == |nodes| {
          return false;
        }
        curr := curr + 1;
        SetCursor(0);
        CursorAddress(nodes, curr);
      }
      found := true;
    }

    /** zfs_acl_next_ace. The walk starts over when `start` is null; otherwise it goes on from the cursor. */
    method NextAce(start: Link) returns (acep: Link)
      requires Valid() && (start.At? ==> Walking())
      modifies `nodes, `curr, `nextAce, `passed
      ensures Valid() && LastCount(nodes) == old(LastCount(nodes))
      ensures var p := if start.Null? then 0 else old(passed);
              if p < |addrs| then acep == At(addrs[p]) && On(addrs[p]) && passed == p + 1 else acep.Null?
    {
      var found := Seek(start);
      if !found {
        return Null;
      }
      CursorAddress(nodes, curr);
      acep := At(nextAce);
      SetCursor(nodes[curr].idx + 1);
    }

    method Relink(mem': seq<Ace>, nodes': seq<Node>, curr': nat, added: nat)
      requires Sound(nodes', mem') && TotalCount(nodes') == count + 1 && TotalSize(nodes') == bytes + added
      requires Placed(nodes', curr', nextAce)
      modifies `mem, `nodes, `curr, `count, `bytes, `addrs, `contents, `passed
      ensures Valid() && Walking() && mem == mem' && nodes == nodes' && curr == curr'
      ensures addrs == Addresses(nodes') && contents == Load(mem', addrs) && passed == Passed(nodes', curr')
    {
      mem, nodes, curr, count, bytes := mem', nodes', curr', count + 1, bytes + added;
      addrs, passed := Addresses(nodes'), Passed(nodes', curr');
      contents := Load(mem', addrs);
    }

    /** zfs_acl_ace_insert, with the new entry `a`. */
    method AceInsert(acep: nat, a: Ace) returns (newacep: nat)
      requires Valid() && On(acep) && acep < |mem| && Size(a) == Size(mem[acep])
      modifies `mem, `nodes, `curr, `count, `bytes, `addrs, `contents, `passed
      ensures Valid() && On(acep) && mem == old(mem) + [a] && passed == old(passed) + 1
      ensures 0 < old(passed) <= |old(addrs)|
      ensures addrs == InsertAt(old(addrs), old(passed) - 1, newacep)
      ensures contents == InsertAt(old(contents), old(passed) - 1, a)
      ensures LastCount(nodes) == Min(old(LastCount(nodes)), |old(addrs)| - old(passed) + 1)
    {
      newacep := |mem|;
      var nodes', curr' := OpenChunk(nodes, mem, curr, a, acep);
      Relink(mem + [a], nodes', curr', Size(a));
    }

    /** zfs_acl_split_ace: an inherit-only copy goes in front, the entry itself loses its inheritance flags, and the
        cursor goes back so that the entry is visited again. */
    method SplitAce(acep: nat, ghost pre: Acl, ghost rest: Acl)
      requires Valid() && On(acep) && acep < |mem|
      requires contents == pre + ([mem[acep]] + rest) && passed == |pre| + 1
      modifies this
      ensures Valid() && Walking() && passed == |pre| + 1
      ensures var a := old(mem[acep]); contents == (pre + [InheritHalf(a)]) + ([ActiveHalf(a)] + rest)
      ensures |pre| + 1 < |addrs| && addrs[|pre| + 1] == acep
      ensures LastCount(nodes) == Min(old(LastCount(nodes)), |rest| + 1)
    {
      var a := mem[acep];
      InsertBefore(pre, a, rest, InheritHalf(a));
      CursorAddress(nodes, curr);
      var newacep := AceInsert(acep, InheritHalf(a));
      Overwrite(pre + [InheritHalf(a)], a, rest, ActiveHalf(a));
      Store(acep, ActiveHalf(a), |pre| + 1);
      SetCursor(nodes[curr].idx - 1);
    }

    /** zfs_acl_prepend_deny. */
    method PrependDeny(acep: nat, mode: Mode, owner: nat, ghost pre: Acl, ghost rest: Acl) returns (newacep: nat)
      requires Valid() && On(acep) && acep < |mem|
      requires contents == pre + ([mem[acep]] + rest) && passed == |pre| + 1
      requires Named(mem[acep].who)
      modifies this
      ensures Valid() && On(acep) && passed == |pre| + 2
      ensures acep < |mem| && mem[acep] == old(mem[acep])
      ensures var a := mem[acep];
              contents == pre + ([PrependFixup(Ace(a.who, Deny, NO_FLAGS, {}), a, mode, owner)] + ([a] + rest))
      ensures |pre| + 1 < |addrs| && addrs[|pre|] == newacep && addrs[|pre| + 1] == acep
      ensures LastCount(nodes) == Min(old(LastCount(nodes)), |rest| + 1)
    {
      var a := mem[acep];
      var deny := PrependFixup(Ace(a.who, Deny, NO_FLAGS, {}), a, mode, owner);
      InsertBefore(pre, a, rest, deny);
      CursorAddress(nodes, curr);
      newacep := AceInsert(acep, deny);
    }

    /** zfs_fixup_group_entries on the entry at `acep` and the deny at `prevacep` directly before it. */
    method FixupGroupEntries(acep: nat, prevacep: nat, mode: Mode, ghost pre: Acl, ghost rest: Acl)
      requires Valid() && |pre| + 1 < |addrs|
      requires prevacep == addrs[|pre|] && acep == addrs[|pre| + 1]
      requires contents == pre + ([mem[prevacep]] + ([mem[acep]] + rest))
      modifies `mem, `contents
      ensures Valid()
      ensures var deny, a := old(mem[prevacep]), old(mem[acep]);
              contents == pre + ([GroupFixup(deny, deny, mode)] + ([GroupFixup(a, deny, mode)] + rest))
    {
      var deny, a := mem[prevacep], mem[acep];
      DistinctAt(addrs, |pre|, |pre| + 1);
      Overwrite(pre + [deny], a, rest, GroupFixup(a, deny, mode));
      Store(acep, GroupFixup(a, deny, mode), |pre| + 1);
      Overwrite(pre, deny, [GroupFixup(a, deny, mode)] + rest, GroupFixup(deny, deny, mode));
      Store(prevacep, GroupFixup(deny, deny, mode), |pre|);
    }

    /** The previous entry serves as the deny in front of the entry at `acep`. */
    method ReuseDeny(acep: nat, prevacep: nat, mode: Mode, owner: nat, ghost out: Acl, ghost tail: Acl)
      requires Valid() && |out| + 1 < |addrs| && prevacep == addrs[|out|] && acep == addrs[|out| + 1]
      requires contents == out + ([mem[prevacep]] + ([mem[acep]] + tail)) && CanReuse(mem[prevacep], mem[acep])
      modifies `mem, `contents
      ensures Valid()
      ensures var held, a := Some(old(mem[prevacep])), old(mem[acep]);
              contents == out + ([DenyFor(held, a, mode, owner)] + ([AllowAfter(held, a, mode, owner)] + tail))
    {
      var deny := PrependFixup(mem[prevacep], mem[acep], mode, owner);
      Overwrite(out, mem[prevacep], [mem[acep]] + tail, deny);
      DistinctAt(addrs, |out|, |out| + 1);
      Store(prevacep, deny, |out|);
      FixupGroupEntries(acep, prevacep, mode, out, tail);
    }

    /** A new deny goes in front of the entry at `acep`. */
    method NewDeny(acep: nat, mode: Mode, owner: nat, ghost pre: Acl, ghost tail: Acl, ghost held: Held)
      requires Valid() && On(acep) && acep < |mem| && passed == |pre| + 1 && Named(mem[acep].who)
      requires contents == pre + ([mem[acep]] + tail) && !Reuses(held, mem[acep])
      modifies this
      ensures Valid() && On(acep) && passed == |pre| + 2 && |pre| + 1 < |addrs| && addrs[|pre| + 1] == acep
      ensures var a := old(mem[acep]);
              contents == pre + ([DenyFor(held, a, mode, owner)] + ([AllowAfter(held, a, mode, owner)] + tail))
      ensures LastCount(nodes) == Min(old(LastCount(nodes)), |tail| + 1)
    {
      var newacep := PrependDeny(acep, mode, owner, pre, tail);
      assert contents[|pre|] == mem[newacep];
      FixupGroupEntries(acep, newacep, mode, pre, tail);
    }

    /** The walk is between two entries: `out` is final, `held` is the entry at `prev`, which the next one may still
        change, and `rest` is still to come. After a split nothing is held and `prev` is the entry to come. */
    ghost predicate Between(out: Acl, held: Held, rest: Acl, prev: Link)
      reads this
    {
      && contents == out + Push(held, rest)
      && (prev.Null? ==> held.None?)
      && (prev.At? ==> |out| < |addrs| && prev.addr == addrs[|out|])
    }

    /** The cursor has returned entry `a`. */
    ghost predicate Visiting(out: Acl, held: Held, a: Ace, tail: Acl, prev: Link, acep: nat)
      reads this
    {
      && On(acep) && passed == |out| + |Push(held, [])| + 1 <= |addrs| && acep == addrs[passed - 1]
      && acep < |mem| && mem[acep] == a && Between(out, held, [a] + tail, prev)
    }

    /** The entry at `acep` has been dealt with. */
    ghost predicate Visited(out: Acl, held: Held, rest: Acl, acep: nat)
      reads this
    {
      Walking() && passed == |out| + |Push(held, [])| && Between(out, held, rest, At(acep))
    }

    /** An entry that needs a new deny in front of it. */
    method VisitUnguarded(acep: nat, mode: Mode, owner: nat,
                          ghost out: Acl, ghost held: Held, ghost a: Ace, ghost tail: Acl, ghost prev: Link)
      requires Valid() && Visiting(out, held, a, tail, prev, acep)
      requires !Skipped(a) && !NeedsSplit(a) && NeedsDeny(a, Groupmask) && !Reuses(held, a)
      modifies this
      ensures Valid() && Visited(out + Front(held, a, Groupmask, mode, owner),
                                 NextHeld(held, a, Groupmask, mode, owner), tail, acep)
      ensures LastCount(nodes) == Min(old(LastCount(nodes)), |tail| + 1)
    {
      DenyShape(out, held, a, tail, mode, owner);
      NewDeny(acep, mode, owner, out + Push(held, []), tail, held);
    }

    /** An entry that has a reusable deny in front of it. */
    method VisitGuarded(acep: nat, prevacep: nat, mode: Mode, owner: nat,
                        ghost out: Acl, ghost held: Held, ghost a: Ace, ghost tail: Acl)
      requires Valid() && Visiting(out, held, a, tail, At(prevacep), acep)
      requires !Skipped(a) && !NeedsSplit(a) && NeedsDeny(a, Groupmask) && Reuses(held, a)
      modifies `mem, `contents
      ensures Valid() && Visited(out + Front(held, a, Groupmask, mode, owner),
                                 NextHeld(held, a, Groupmask, mode, owner), tail, acep)
    {
      assert contents[|out|] == mem[prevacep];
      DenyShape(out, held, a, tail, mode, owner);
      ReuseDeny(acep, prevacep, mode, owner, out, tail);
    }

    /** An entry of which a half that is only inherited goes in front. */
    method VisitInherited(acep: nat, ghost out: Acl, ghost held: Held, ghost a: Ace, ghost tail: Acl, ghost prev: Link)
      requires Valid() && Visiting(out, held, a, tail, prev, acep)
      modifies this
      ensures Valid() && Visited(out + Push(held, [InheritHalf(a)]), None, [ActiveHalf(a)] + tail, acep)
      ensures LastCount(nodes) == Min(old(LastCount(nodes)), |tail| + 1)
    {
      PlainShape(out, held, [a] + tail);
      PlainShape(out, held, [InheritHalf(a)]);
      SplitAce(acep, out + Push(held, []), tail);
    }

    /** An entry that is changed in place, or not at all. */
    method VisitInPlace(acep: nat, x: Ace, ghost out: Acl, ghost held: Held, ghost a: Ace, ghost tail: Acl,
                        ghost prev: Link)
      requires Valid() && Visiting(out, held, a, tail, prev, acep) && Size(x) == Size(a)
      modifies `mem, `contents
      ensures Valid() && Visited(out + Push(held, []), Some(x), tail, acep)
    {
      PlainShape(out, held, [a] + tail);
      Overwrite(out + Push(held, []), a, tail, x);
      Store(acep, x, |out + Push(held, [])|);
    }

    /** One turn of the walk. */
    method Visit(acep: nat, prev: Link, aclmode: AclMode, mode: Mode, owner: nat,
                 ghost out: Acl, ghost held: Held, ghost a: Ace, ghost tail: Acl)
      requires Valid() && Visiting(out, held, a, tail, prev, acep)
      modifies this
      ensures Valid()
      ensures var out' := out + Front(held, a, aclmode, mode, owner);
              if NeedsSplit(a) then Visited(out', None, [ActiveHalf(a)] + tail, acep)
              else Visited(out', NextHeld(held, a, aclmode, mode, owner), tail, acep)
      ensures LastCount(nodes) ==
              if Inserts(held, a, aclmode) then Min(old(LastCount(nodes)), |tail| + 1) else old(LastCount(nodes))
    {
      if Skipped(mem[acep]) {
        VisitInPlace(acep, mem[acep], out, held, a, tail, prev);
      } else if NeedsSplit(mem[acep]) {
        VisitInherited(acep, out, held, a, tail, prev);
      } else if NeedsDeny(mem[acep], aclmode) {
        assert prev.At? ==> contents[|out|] == mem[prev.addr];
        if prev.At? && CanReuse(mem[prev.addr], mem[acep]) {
          VisitGuarded(acep, prev.addr, mode, owner, out, held, a, tail);
        } else {
          VisitUnguarded(acep, mode, owner, out, held, a, tail, prev);
        }
      } else {
        VisitInPlace(acep, Cleared(mem[acep]), out, held, a, tail, prev);
      }
    }
  }

  lemma PlainShape(out: Acl, held: Held, rest: Acl)
    ensures out + Push(held, rest) == (out + Push(held, [])) + rest
  {
  }

  lemma FrontShape(out: Acl, held: Held, a: Ace, mode: Mode, owner: nat)
    requires !Skipped(a) && !NeedsSplit(a) && NeedsDeny(a, Groupmask)
    ensures var pre := if Reuses(held, a) then out else out + Push(held, []);
            out + Front(held, a, Groupmask, mode, owner) == pre + [DenyFor(held, a, mode, owner)]
  {
  }

  lemma DenyShape(out: Acl, held: Held, a: Ace, tail: Acl, mode: Mode, owner: nat)
    requires !Skipped(a) && !NeedsSplit(a) && NeedsDeny(a, Groupmask)
    ensures var front, next := Front(held, a, Groupmask, mode, owner), NextHeld(held, a, Groupmask, mode, owner);
            var deny, allow := DenyFor(held, a, mode, owner), AllowAfter(held, a, mode, owner);
            var pre := if Reuses(held, a) then out else out + Push(held, []);
            && (out + front) + Push(next, tail) == pre + ([deny] + ([allow] + tail))
            && |out + front| == |pre| + 1
    ensures held.Some? ==> out + Push(held, [a] + tail) == out + ([held.ace] + ([a] + tail))
    ensures out + Push(held, [a] + tail) == (out + Push(held, [])) + ([a] + tail)
  {
    FrontShape(out, held, a, mode, owner);
    PlainShape(out, held, [a] + tail);
    var pre := if Reuses(held, a) then out else out + Push(held, []);
    Overwrite(pre, DenyFor(held, a, mode, owner), [AllowAfter(held, a, mode, owner)] + tail, a);
    assert (pre + [DenyFor(held, a, mode, owner)]) + ([AllowAfter(held, a, mode, owner)] + tail) ==
           pre + ([DenyFor(held, a, mode, owner)] + ([AllowAfter(held, a, mode, owner)] + tail));
  }

  lemma InsertBefore<T>(pre: seq<T>, a: T, rest: seq<T>, x: T)
    ensures InsertAt(pre + ([a] + rest), |pre|, x) == pre + ([x] + ([a] + rest))
    ensures pre + ([x] + ([a] + rest)) == (pre + [x]) + ([a] + rest)
  {
  }

  lemma Overwrite<T>(pre: seq<T>, a: T, rest: seq<T>, x: T)
    ensures (pre + ([a] + rest))[|pre| := x] == pre + ([x] + rest)
    ensures forall b :: (pre + [b]) + ([a] + rest) == pre + ([b] + ([a] + rest))
  {
  }
}
