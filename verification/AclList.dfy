/**
 The list of chunks that holds an ACL in memory, the cursor that walks it, and chmod on it. Entries live at
 addresses; a chunk is a run of consecutive addresses.
 */
module AclList {
  import opened AclModel

  /** A chunk: its first address, its number of entries, its size in bytes, and how far the cursor is in it. */
  datatype Node = Node(start: nat, count: nat, size: nat, idx: nat)

  datatype Link = Null | At(addr: nat)

  /** Entries for owner@, group@ and everyone@ are bare headers; all others also carry an id. */
  function Size(a: Ace): nat {
    if a.typ == Special || Named(a.who) then 16 else 8
  }

  // ----- the addresses of a chunk list -----

  function Run(start: nat, count: nat): seq<nat> {
    seq(count, i requires 0 <= i => start + i)
  }

  function Addresses(nodes: seq<Node>): seq<nat> {
    if nodes == [] then [] else Run(nodes[0].start, nodes[0].count) + Addresses(nodes[1..])
  }

  predicate InMemory(addrs: seq<nat>, size: nat) {
    forall i :: 0 <= i < |addrs| ==> addrs[i] < size
  }

  predicate Distinct(addrs: seq<nat>) {
    addrs == [] || (addrs[0] !in addrs[1..] && Distinct(addrs[1..]))
  }

  function Load(mem: seq<Ace>, addrs: seq<nat>): Acl
    requires InMemory(addrs, |mem|)
  {
    seq(|addrs|, i requires 0 <= i < |addrs| => mem[addrs[i]])
  }

  function InsertAt<T>(s: seq<T>, i: nat, x: T): seq<T>
    requires i <= |s|
  {
    s[..i] + [x] + s[i..]
  }

  lemma {:induction false} AddressesAppend(a: seq<Node>, b: seq<Node>)
    ensures Addresses(a + b) == Addresses(a) + Addresses(b)
  {
    if a == [] {
      assert a + b == b;
    } else {
      assert (a + b)[1..] == a[1..] + b;
      AddressesAppend(a[1..], b);
    }
  }

  lemma AddressesOne(n: Node)
    ensures Addresses([n]) == Run(n.start, n.count)
  {
    assert [n][1..] == [];
  }

  /** A chunk list around its `k`-th chunk. */
  lemma {:induction false} AddressesAround(nodes: seq<Node>, k: nat)
    requires k < |nodes|
    ensures Addresses(nodes) ==
            Addresses(nodes[..k]) + (Run(nodes[k].start, nodes[k].count) + Addresses(nodes[k + 1..]))
  {
    assert nodes == nodes[..k] + nodes[k..];
    AddressesAppend(nodes[..k], nodes[k..]);
    assert nodes[k..][1..] == nodes[k + 1..];
  }

  // ----- sizes -----

  function SizeOf(mem: seq<Ace>, start: nat, count: nat): nat
    requires start + count <= |mem|
    decreases count
  {
    if count == 0 then 0 else Size(mem[start]) + SizeOf(mem, start + 1, count - 1)
  }

  /** Every chunk lies in memory and knows its size. */
  predicate Sized(nodes: seq<Node>, mem: seq<Ace>) {
    nodes == [] ||
    (&& nodes[0].start + nodes[0].count <= |mem|
     && nodes[0].size == SizeOf(mem, nodes[0].start, nodes[0].count)
     && Sized(nodes[1..], mem))
  }

  function TotalCount(nodes: seq<Node>): nat {
    if nodes == [] then 0 else nodes[0].count + TotalCount(nodes[1..])
  }

  function TotalSize(nodes: seq<Node>): nat {
    if nodes == [] then 0 else nodes[0].size + TotalSize(nodes[1..])
  }

  lemma {:induction false} SizeOfSplit(mem: seq<Ace>, start: nat, count: nat, k: nat)
    requires start + count <= |mem| && k <= count
    ensures SizeOf(mem, start, count) == SizeOf(mem, start, k) + SizeOf(mem, start + k, count - k)
    decreases k
  {
    if k > 0 {
      SizeOfSplit(mem, start + 1, count - 1, k - 1);
    }
  }

  /** Sizes depend only on the sizes of the entries in range. */
  lemma {:induction false} SizeOfSame(mem: seq<Ace>, mem': seq<Ace>, start: nat, count: nat)
    requires start + count <= |mem| <= |mem'|
    requires forall i :: 0 <= i < |mem| ==> Size(mem[i]) == Size(mem'[i])
    ensures SizeOf(mem', start, count) == SizeOf(mem, start, count)
    decreases count
  {
    if count > 0 {
      SizeOfSame(mem, mem', start + 1, count - 1);
    }
  }

  lemma {:induction false} SizedSame(nodes: seq<Node>, mem: seq<Ace>, mem': seq<Ace>)
    requires Sized(nodes, mem) && |mem| <= |mem'|
    requires forall i :: 0 <= i < |mem| ==> Size(mem[i]) == Size(mem'[i])
    ensures Sized(nodes, mem')
  {
    if nodes != [] {
      SizeOfSame(mem, mem', nodes[0].start, nodes[0].count);
      SizedSame(nodes[1..], mem, mem');
    }
  }

  lemma {:induction false} SizedAppend(a: seq<Node>, b: seq<Node>, mem: seq<Ace>)
    ensures Sized(a + b, mem) <==> Sized(a, mem) && Sized(b, mem)
    ensures TotalCount(a + b) == TotalCount(a) + TotalCount(b)
    ensures TotalSize(a + b) == TotalSize(a) + TotalSize(b)
  {
    if a == [] {
      assert a + b == b;
    } else {
      assert (a + b)[1..] == a[1..] + b;
      SizedAppend(a[1..], b, mem);
    }
  }

  lemma {:induction false} CountIsLength(nodes: seq<Node>)
    ensures TotalCount(nodes) == |Addresses(nodes)|
  {
    if nodes != [] {
      CountIsLength(nodes[1..]);
    }
  }

  function Bytes(acl: Acl): nat {
    if acl == [] then 0 else Size(acl[0]) + Bytes(acl[1..])
  }

  lemma {:induction false} BytesAppend(a: Acl, b: Acl)
    ensures Bytes(a + b) == Bytes(a) + Bytes(b)
  {
    if a == [] {
      assert a + b == b;
    } else {
      assert (a + b)[1..] == a[1..] + b;
      BytesAppend(a[1..], b);
    }
  }

  lemma {:induction false} BytesOfRun(mem: seq<Ace>, start: nat, count: nat)
    requires start + count <= |mem|
    ensures Bytes(Load(mem, Run(start, count))) == SizeOf(mem, start, count)
    decreases count
  {
    if count > 0 {
      BytesOfRun(mem, start + 1, count - 1);
      assert Load(mem, Run(start, count))[1..] == Load(mem, Run(start + 1, count - 1));
    }
  }

  /** The chunk sizes add up to the size of the entries in the list. */
  lemma {:induction false} SizeIsBytes(nodes: seq<Node>, mem: seq<Ace>)
    requires Sized(nodes, mem)
    ensures InMemory(Addresses(nodes), |mem|)
    ensures TotalSize(nodes) == Bytes(Load(mem, Addresses(nodes)))
  {
    if nodes != [] {
      var run := Run(nodes[0].start, nodes[0].count);
      SizeIsBytes(nodes[1..], mem);
      BytesOfRun(mem, nodes[0].start, nodes[0].count);
      assert Load(mem, Addresses(nodes)) == Load(mem, run) + Load(mem, Addresses(nodes[1..]));
      BytesAppend(Load(mem, run), Load(mem, Addresses(nodes[1..])));
    }
  }

  // ----- stores and insertions -----

  lemma {:induction false} DistinctAt(addrs: seq<nat>, i: nat, j: nat)
    requires Distinct(addrs) && i < j < |addrs|
    ensures addrs[i] != addrs[j]
  {
    if i == 0 {
      assert addrs[j] == addrs[1..][j - 1];
    } else {
      DistinctAt(addrs[1..], i - 1, j - 1);
    }
  }

  /** A store changes the one entry whose address it is. */
  lemma {:induction false} StoreAt(mem: seq<Ace>, addrs: seq<nat>, p: nat, a: Ace)
    requires InMemory(addrs, |mem|) && Distinct(addrs) && p < |addrs|
    ensures Load(mem[addrs[p] := a], addrs) == Load(mem, addrs)[p := a]
  {
    var mem' := mem[addrs[p] := a];
    forall i | 0 <= i < |addrs| ensures Load(mem', addrs)[i] == Load(mem, addrs)[p := a][i] {
      if i < p {
        DistinctAt(addrs, i, p);
      } else if p < i {
        DistinctAt(addrs, p, i);
      }
    }
  }

  lemma {:induction false} DistinctInsert(addrs: seq<nat>, p: nat, x: nat)
    requires Distinct(addrs) && InMemory(addrs, x) && p <= |addrs|
    ensures Distinct(InsertAt(addrs, p, x))
  {
    var addrs' := InsertAt(addrs, p, x);
    if p == 0 {
      assert addrs'[1..] == addrs;
    } else {
      DistinctInsert(addrs[1..], p - 1, x);
      assert addrs'[1..] == InsertAt(addrs[1..], p - 1, x);
    }
  }

  lemma {:induction false} RunDistinct(start: nat, count: nat)
    ensures Distinct(Run(start, count))
    decreases count
  {
    if count > 0 {
      assert Run(start, count)[1..] == Run(start + 1, count - 1);
      RunDistinct(start + 1, count - 1);
    }
  }

  lemma LoadInsert(mem: seq<Ace>, addrs: seq<nat>, p: nat, a: Ace)
    requires InMemory(addrs, |mem|) && p <= |addrs|
    ensures InMemory(InsertAt(addrs, p, |mem|), |mem| + 1)
    ensures Load(mem + [a], InsertAt(addrs, p, |mem|)) == InsertAt(Load(mem, addrs), p, a)
  {
  }

  /** What becomes of the current chunk when a new chunk goes in before its current entry: it is split there, unless
      the current entry is its first. */
  function Opened(n: Node, added: Node, head: nat): seq<Node>
    requires 1 <= n.idx <= n.count && head <= n.size
  {
    if n.idx == 1 then [added, n]
    else
      [Node(n.start, n.idx - 1, head, n.idx), added,
       Node(n.start + n.idx - 1, n.count - n.idx + 1, n.size - head, 1)]
  }

  lemma OpenedAddresses(n: Node, added: Node, head: nat)
    requires 1 <= n.idx <= n.count && head <= n.size && added.count == 1
    ensures Addresses(Opened(n, added, head)) == InsertAt(Run(n.start, n.count), n.idx - 1, added.start)
  {
    var nodes := Opened(n, added, head);
    assert Run(added.start, 1) == [added.start];
    if n.idx == 1 {
      assert nodes[1..] == [n];
      AddressesOne(n);
    } else {
      assert nodes[1..] == [added, nodes[2]] && nodes[1..][1..] == [nodes[2]];
      AddressesOne(nodes[2]);
    }
  }

  lemma InsertInMiddle<T>(a: seq<T>, b: seq<T>, c: seq<T>, i: nat, x: T)
    requires i <= |b|
    ensures InsertAt(a + (b + c), |a| + i, x) == a + (InsertAt(b, i, x) + c)
  {
    var s := a + (b + c);
    assert s[..|a| + i] == a + b[..i];
    assert s[|a| + i..] == b[i..] + c;
  }

  lemma {:induction false} AddressesThree(before: seq<Node>, mid: seq<Node>, after: seq<Node>)
    ensures Addresses(before + (mid + after)) == Addresses(before) + (Addresses(mid) + Addresses(after))
  {
    AddressesAppend(before, mid + after);
    AddressesAppend(mid, after);
  }

  /** Inserting a chunk inserts its address before that of the current entry. */
  lemma {:induction false} OpenedInList(before: seq<Node>, n: Node, after: seq<Node>, added: Node, head: nat)
    requires 1 <= n.idx <= n.count && head <= n.size && added.count == 1
    ensures |Addresses(before)| + n.idx <= |Addresses(before + ([n] + after))|
    ensures Addresses(before + (Opened(n, added, head) + after)) ==
            InsertAt(Addresses(before + ([n] + after)), |Addresses(before)| + n.idx - 1, added.start)
  {
    AddressesThree(before, [n], after);
    AddressesOne(n);
    AddressesThree(before, Opened(n, added, head), after);
    OpenedAddresses(n, added, head);
    InsertInMiddle(Addresses(before), Run(n.start, n.count), Addresses(after), n.idx - 1, added.start);
  }

  lemma {:induction false} OpenedSizes(n: Node, added: Node, mem: seq<Ace>, head: nat)
    requires 1 <= n.idx <= n.count && n.start + n.count <= |mem| && added.start < |mem|
    requires added.count == 1 && added.size == Size(mem[added.start])
    requires n.size == SizeOf(mem, n.start, n.count) && head == SizeOf(mem, n.start, n.idx - 1) && head <= n.size
    ensures Sized(Opened(n, added, head), mem)
    ensures TotalCount(Opened(n, added, head)) == n.count + 1
    ensures TotalSize(Opened(n, added, head)) == n.size + added.size
  {
    var nodes := Opened(n, added, head);
    assert SizeOf(mem, added.start, 1) == added.size;
    SizeOfSplit(mem, n.start, n.count, n.idx - 1);
    if n.idx == 1 {
      assert nodes[1..] == [n] && [n][1..] == [];
    } else {
      var last := nodes[2];
      assert nodes[1..] == [added, last] && nodes[1..][1..] == [last] && [last][1..] == [];
      assert Sized([last], mem) && TotalCount([last]) == last.count && TotalSize([last]) == last.size;
    }
  }

  lemma {:induction false} OpenedSizesInList(before: seq<Node>, n: Node, after: seq<Node>, added: Node,
                                             mem: seq<Ace>, head: nat)
    requires 1 <= n.idx <= n.count && n.start + n.count <= |mem| && added.start < |mem|
    requires added.count == 1 && added.size == Size(mem[added.start])
    requires Sized(before + ([n] + after), mem)
    requires head == SizeOf(mem, n.start, n.idx - 1) && head <= n.size
    ensures var nodes, nodes' := before + ([n] + after), before + (Opened(n, added, head) + after);
            && Sized(nodes', mem) && TotalCount(nodes') == TotalCount(nodes) + 1
            && TotalSize(nodes') == TotalSize(nodes) + added.size
  {
    SizedAppend(before, [n] + after, mem);
    SizedAppend([n], after, mem);
    assert [n][1..] == [];
    OpenedSizes(n, added, mem, head);
    SizedAppend(before, Opened(n, added, head) + after, mem);
    SizedAppend(Opened(n, added, head), after, mem);
  }
}
