/**
 The range lock of one file as a state machine.

 The tree of lock entries is a sequence sorted by offset. `grants` is the simple idea that the tree
 implements: which handles are held, over which range, shared or exclusive. A handle whose entry was
 replaced by proxies is `detached` (its own reference count is 0). Threads that found their range taken are
 in `sleepers`, each waiting on a flag of one particular entry object. An entry whose owner released the mutex
 before broadcasting is in `pending` until the broadcast.
 */
module RangeLockModel {

  const UINT64_MAX: nat := 0xFFFF_FFFF_FFFF_FFFF

  type Tid = nat

  datatype Kind = Reader | Writer

  /** Object identities: the handle allocated by step `stamp`, or the proxy allocated by it at offset `at`. */
  datatype Id = Handle(stamp: nat) | Proxy(stamp: nat, at: nat)

  datatype Grant = Grant(off: nat, len: nat, kind: Kind) {
    function End(): nat { off + len }
  }

  datatype Entry = Entry(id: Id, off: nat, len: nat, cnt: nat, kind: Kind, writeWanted: bool, readWanted: bool) {
    function End(): nat { off + len }

    predicate Overlaps(lo: nat, hi: nat) { off < hi && lo < End() }
  }

  datatype Want = WantWrite | WantRead

  /** A thread that sleeps on an entry because it wants the range [off, off + len). */
  datatype Sleep = Sleep(entry: Id, want: Want, off: nat, len: nat)

  datatype State = State(tree: seq<Entry>, grants: map<Id, Grant>, detached: set<Id>,
                         sleepers: map<Tid, Sleep>, pending: set<Id>, now: nat)

  const INIT: State := State([], map[], {}, map[], {}, 0)

  // ----- searching the tree -----

  /** The entries are nonempty, start at or after `lo`, and follow one another without overlapping. */
  ghost predicate SortedFrom(tree: seq<Entry>, lo: nat) {
    tree == [] || (lo <= tree[0].off && 0 < tree[0].len && SortedFrom(tree[1..], tree[0].End()))
  }

  /** The number of entries that start before `off`: where a search for `off` ends. */
  function LowerBound(tree: seq<Entry>, off: nat): (k: nat)
    ensures k <= |tree|
    ensures forall i :: 0 <= i < k ==> tree[i].off < off
    ensures k < |tree| ==> off <= tree[k].off
  {
    if tree == [] || off <= tree[0].off then 0 else 1 + LowerBound(tree[1..], off)
  }

  // ----- readers: splitting, bumping and filling gaps -----

  /** The proxy that takes over from an original lock; a proxy stays what it is. */
  function Proxify(e: Entry, now: nat): Entry {
    if e.id.Proxy? then e else Entry(Proxy(now, e.off), e.off, e.len, 1, Reader, false, false)
  }

  function NewProxy(off: nat, len: nat, now: nat): Entry {
    Entry(Proxy(now, off), off, len, 1, Reader, false, false)
  }

  function Front(e: Entry, at: nat, now: nat): Entry
    requires e.off <= at
  {
    Proxify(e, now).(len := at - e.off)
  }

  function Rear(e: Entry, at: nat, now: nat): Entry
    requires at <= e.End()
  {
    Entry(Proxy(now, at), at, e.End() - at, e.cnt, Reader, false, false)
  }

  /** Adds one reference to everything in [pos, end): gaps get new proxies, a last entry that sticks out is split. */
  function Walk(rest: seq<Entry>, pos: nat, end: nat, now: nat): seq<Entry>
    decreases |rest|, 1
  {
    if rest == [] || end <= rest[0].off then
      if pos < end then [NewProxy(pos, end - pos, now)] + rest else rest
    else if pos < rest[0].off then
      [NewProxy(pos, rest[0].off - pos, now)] + WalkEntry(rest, end, now)
    else
      WalkEntry(rest, end, now)
  }

  function WalkEntry(rest: seq<Entry>, end: nat, now: nat): seq<Entry>
    requires rest != [] && rest[0].off < end
    decreases |rest|, 0
  {
    if end < rest[0].End() then
      var front := Front(rest[0], end, now);
      [front.(cnt := front.cnt + 1)] + ([Rear(rest[0], end, now)] + rest[1..])
    else
      var proxy := Proxify(rest[0], now);
      [proxy.(cnt := proxy.cnt + 1)] + Walk(rest[1..], rest[0].End(), end, now)
  }

  /** The handles that the walk replaces by proxies. */
  function WalkDetached(rest: seq<Entry>, end: nat): set<Id>
    decreases |rest|
  {
    if rest == [] || end <= rest[0].off then {}
    else (if rest[0].id.Handle? then {rest[0].id} else {}) + WalkDetached(rest[1..], end)
  }

  /** Cuts the entry that runs across `off`, if there is one, into two proxies. */
  function Cut(tree: seq<Entry>, off: nat, now: nat): seq<Entry> {
    if tree == [] || off <= tree[0].off then tree
    else if off < tree[0].End() then [Front(tree[0], off, now)] + ([Rear(tree[0], off, now)] + tree[1..])
    else [tree[0]] + Cut(tree[1..], off, now)
  }

  function CutDetached(tree: seq<Entry>, off: nat): set<Id> {
    if tree == [] || off <= tree[0].off then {}
    else if off < tree[0].End() then if tree[0].id.Handle? then {tree[0].id} else {}
    else CutDetached(tree[1..], off)
  }

  /** Is the first entry that starts at or after `off` inside [off, end)? */
  predicate Touches(tree: seq<Entry>, off: nat, end: nat) {
    tree != [] && if tree[0].off < off then Touches(tree[1..], off, end) else tree[0].off < end
  }

  function Bump(tree: seq<Entry>, off: nat, end: nat, now: nat): seq<Entry> {
    if tree != [] && tree[0].off < off then [tree[0]] + Bump(tree[1..], off, end, now) else Walk(tree, off, end, now)
  }

  function BumpDetached(tree: seq<Entry>, off: nat, end: nat): set<Id> {
    if tree != [] && tree[0].off < off then BumpDetached(tree[1..], off, end) else WalkDetached(tree, end)
  }

  function Insert(tree: seq<Entry>, e: Entry): seq<Entry> {
    if tree != [] && tree[0].off < e.off then [tree[0]] + Insert(tree[1..], e) else [e] + tree
  }

  function AddReader(s: State, off: nat, len: nat): State {
    var h := Handle(s.now);
    var cut := Cut(s.tree, off, s.now);
    var s' := s.(grants := s.grants[h := Grant(off, len, Reader)], now := s.now + 1);
    if Touches(cut, off, off + len) then
      s'.(tree := Bump(cut, off, off + len, s.now),
          detached := s.detached + {h} + CutDetached(s.tree, off) + BumpDetached(cut, off, off + len))
    else
      s'.(tree := Insert(s.tree, Entry(h, off, len, 1, Reader, false, false)))
  }

  /** A reader stays out of ranges that a writer holds or waits for. */
  predicate BlocksReader(e: Entry, off: nat, len: nat) {
    e.Overlaps(off, off + len) && (e.kind == Writer || e.writeWanted)
  }

  function ReaderBlocker(tree: seq<Entry>, off: nat, len: nat): (i: nat)
    ensures i <= |tree|
    ensures i < |tree| ==> BlocksReader(tree[i], off, len)
    ensures forall j :: 0 <= j < i ==> !BlocksReader(tree[j], off, len)
  {
    if tree == [] || BlocksReader(tree[0], off, len) then 0 else 1 + ReaderBlocker(tree[1..], off, len)
  }

  function SetWanted(tree: seq<Entry>, i: nat, want: Want): seq<Entry>
    requires i < |tree|
  {
    tree[i := if want == WantWrite then tree[i].(writeWanted := true) else tree[i].(readWanted := true)]
  }

  function SleepOn(s: State, t: Tid, i: nat, want: Want, off: nat, len: nat): State
    requires i < |s.tree|
  {
    s.(tree := SetWanted(s.tree, i, want), sleepers := s.sleepers[t := Sleep(s.tree[i].id, want, off, len)])
  }

  function LockReader(s: State, t: Tid, off: nat, len: nat): State {
    var i := ReaderBlocker(s.tree, off, len);
    if i < |s.tree| then SleepOn(s, t, i, WantRead, off, len) else AddReader(s, off, len)
  }

  // ----- writers: only the neighbours are looked at -----

  /** The part of a file's state that decides how far a writer's lock reaches. */
  datatype Znode = Znode(size: nat, blksz: nat, maxBlksz: nat)

  predicate IsPowerOfTwo(x: nat) {
    x == 0 || x == 1 || (x % 2 == 0 && IsPowerOfTwo(x / 2))
  }

  predicate MustGrow(z: Znode, off: nat, len: nat) {
    EndSize(z, off, len) > z.blksz && (!IsPowerOfTwo(z.blksz) || z.blksz < z.maxBlksz)
  }

  function EndSize(z: Znode, off: nat, len: nat): nat {
    if z.size < off + len then off + len else z.size
  }

  function WriterOff(z: Znode, off: nat, append: bool): nat {
    if append then z.size else off
  }

  /** The range a writer asks for: at the end of the file in append mode, the whole file if blocks must grow. */
  function WriterRange(z: Znode, off: nat, len: nat, append: bool): (nat, nat) {
    var o := WriterOff(z, off, append);
    if MustGrow(z, o, len) then (0, UINT64_MAX) else (o, len)
  }

  /** The entry a writer must wait for: one at the same offset, else the next one, else the previous one. */
  function WriterBlocker(tree: seq<Entry>, off: nat, len: nat): (i: nat)
    ensures i <= |tree|
  {
    var k := LowerBound(tree, off);
    if k < |tree| && (tree[k].off == off || tree[k].off < off + len) then k
    else if 0 < k && off < tree[k - 1].End() then k - 1
    else |tree|
  }

  function AddWriter(s: State, off: nat, len: nat): State {
    var h := Handle(s.now);
    s.(tree := Insert(s.tree, Entry(h, off, len, 1, Writer, false, false)),
       grants := s.grants[h := Grant(off, len, Writer)],
       now := s.now + 1)
  }

  function LockWriter(s: State, t: Tid, off: nat, len: nat): State {
    var i := WriterBlocker(s.tree, off, len);
    if i < |s.tree| then SleepOn(s, t, i, WantWrite, off, len) else AddWriter(s, off, len)
  }

  // ----- releasing -----

  /** Takes one reference away from the entries at the front of `rest` until `len` bytes are released. */
  function Release(rest: seq<Entry>, len: nat): seq<Entry>
    decreases |rest|
  {
    if len == 0 || rest == [] || len < rest[0].len then rest
    else if rest[0].cnt <= 1 then Release(rest[1..], len - rest[0].len)
    else [rest[0].(cnt := rest[0].cnt - 1)] + Release(rest[1..], len - rest[0].len)
  }

  function Released(rest: seq<Entry>, len: nat): set<Id>
    decreases |rest|
  {
    if len == 0 || rest == [] || len < rest[0].len then {}
    else (if rest[0].cnt <= 1 then {rest[0].id} else {}) + Released(rest[1..], len - rest[0].len)
  }

  function ReleaseAt(tree: seq<Entry>, off: nat, len: nat): seq<Entry> {
    if tree != [] && tree[0].off < off then [tree[0]] + ReleaseAt(tree[1..], off, len) else Release(tree, len)
  }

  function ReleasedAt(tree: seq<Entry>, off: nat, len: nat): set<Id> {
    if tree != [] && tree[0].off < off then ReleasedAt(tree[1..], off, len) else Released(tree, len)
  }

  function Awake(sleepers: map<Tid, Sleep>, gone: set<Id>): map<Tid, Sleep> {
    map t | t in sleepers && sleepers[t].entry !in gone :: sleepers[t]
  }

  function UnlockReader(s: State, h: Id): State
    requires h in s.grants
  {
    var g := s.grants[h];
    s.(tree := ReleaseAt(s.tree, g.off, g.len),
       grants := s.grants - {h},
       detached := s.detached - {h},
       sleepers := Awake(s.sleepers, ReleasedAt(s.tree, g.off, g.len)))
  }

  /** A writer leaves the tree at once; the threads waiting for it are woken by a later broadcast. */
  function UnlockWriter(s: State, h: Id): State
    requires h in s.grants
  {
    s.(tree := ReleaseAt(s.tree, s.grants[h].off, s.grants[h].len),
       grants := s.grants - {h},
       pending := s.pending + {h})
  }

  /** The lock `h` on the whole file shrinks to [off, off + len) in place. */
  function Shrink(tree: seq<Entry>, h: Id, off: nat, len: nat): seq<Entry> {
    if tree == [] then []
    else [if tree[0].id == h then tree[0].(off := off, len := len) else tree[0]] + Shrink(tree[1..], h, off, len)
  }

  function Reduce(s: State, h: Id, off: nat, len: nat): State {
    s.(tree := Shrink(s.tree, h, off, len),
       grants := s.grants[h := Grant(off, len, Writer)],
       pending := s.pending + {h})
  }

  function Broadcast(s: State, id: Id): State {
    s.(sleepers := Awake(s.sleepers, {id}), pending := s.pending - {id})
  }

  // ----- runs -----

  datatype Op =
    | OpLockReader(t: Tid, off: nat, len: nat)
    | OpLockWriter(t: Tid, off: nat, len: nat)
    | OpUnlock(h: Id)
    | OpReduce(h: Id, off: nat, len: nat)
    | OpBroadcast(h: Id)

  predicate InBounds(off: nat, len: nat) {
    0 < len && off + len <= UINT64_MAX
  }

  /** What callers must respect: sane ranges, awake threads, handles they hold, and only whole-file locks shrink. */
  predicate Enabled(s: State, op: Op) {
    match op
    case OpLockReader(t, off, len) => t !in s.sleepers && InBounds(off, len)
    case OpLockWriter(t, off, len) => t !in s.sleepers && InBounds(off, len)
    case OpUnlock(h) => h in s.grants && h !in s.pending
    case OpReduce(h, off, len) => h in s.grants && s.grants[h] == Grant(0, UINT64_MAX, Writer) && InBounds(off, len)
    case OpBroadcast(h) => h in s.pending
  }

  function Step(s: State, op: Op): State
    requires Enabled(s, op)
  {
    match op
    case OpLockReader(t, off, len) => LockReader(s, t, off, len)
    case OpLockWriter(t, off, len) => LockWriter(s, t, off, len)
    case OpUnlock(h) => if s.grants[h].kind == Reader then UnlockReader(s, h) else UnlockWriter(s, h)
    case OpReduce(h, off, len) => Reduce(s, h, off, len)
    case OpBroadcast(h) => Broadcast(s, h)
  }

  /** `states` is a run: it starts with no locks and each state follows from the one before by an enabled step. */
  ghost predicate IsRun(states: seq<State>, ops: seq<Op>) {
    && |states| == |ops| + 1
    && states[0] == INIT
    && forall i :: 0 <= i < |ops| ==> Follows(states[i], ops[i], states[i + 1])
  }

  ghost predicate Follows(s: State, op: Op, s': State) {
    Enabled(s, op) && s' == Step(s, op)
  }
}
