/**
 Pool specifications: the words of a zpool command line, and the virtual devices they describe.
 */
module VdevModel {

  datatype Option<T> = None | Some(value: T)

  /** What probing a device argument finds out. The size is not always known. */
  datatype Device = Device(isFile: bool, size: Option<nat>)

  type Probe = string -> Option<Device>

  datatype Leaf = Leaf(arg: string, dev: Device, log: bool)

  /** A top-level vdev: a device of its own, or a raidz (with its parity) or mirror (parity 0) of devices. */
  datatype Top =
    | Single(leaf: Leaf)
    | Group(raidz: bool, parity: nat, children: seq<Leaf>, log: bool)

  datatype Spec = Spec(top: seq<Top>, spares: seq<Leaf>, cache: seq<Leaf>)

  datatype Error = BadDevice | TooFew | SpareTwice | CacheTwice | LogTwice | LogKind | NoDevices | LogEmpty

  datatype Result<T> = Ok(value: T) | Err(error: Error)

  // ----- words -----

  datatype Key = Raidz(parity: nat) | Mirror | Spare | Log | Cache

  /** is_grouping. */
  function KeyOf(word: string): Option<Key> {
    if word == "raidz" || word == "raidz1" then Some(Raidz(1))
    else if word == "raidz2" then Some(Raidz(2))
    else if word == "mirror" then Some(Mirror)
    else if word == "spare" then Some(Spare)
    else if word == "log" then Some(Log)
    else if word == "cache" then Some(Cache)
    else None
  }

  function MinDevices(key: Key): nat {
    match key
    case Raidz(parity) => parity + 1
    case Mirror => 2
    case _ => 1
  }

  /** The words before the next keyword. */
  function Devices(args: seq<string>): seq<string> {
    if args == [] || KeyOf(args[0]).Some? then [] else [args[0]] + Devices(args[1..])
  }

  lemma {:induction false} DevicesArePrefix(args: seq<string>)
    ensures Devices(args) <= args
    ensures |Devices(args)| < |args| ==> KeyOf(args[|Devices(args)|]).Some?
  {
    if args != [] && KeyOf(args[0]).None? {
      DevicesArePrefix(args[1..]);
    }
  }

  // ----- construct_spec -----

  /** The state of the parser. */
  datatype Parser = Parser(top: seq<Top>, spares: seq<Leaf>, cache: seq<Leaf>, isLog: bool, seenLogs: bool, nlogs: nat)

  const START := Parser([], [], [], false, false, 0)

  function MakeLeaves(devs: seq<string>, probe: Probe): Option<seq<Leaf>> {
    if devs == [] then Some([])
    else if probe(devs[0]).None? then None
    else
      match MakeLeaves(devs[1..], probe)
      case None => None
      case Some(rest) => Some([Leaf(devs[0], probe(devs[0]).value, false)] + rest)
  }

  /** The check at a keyword, before its devices are looked at: specified twice, or not allowed as a log device. */
  function KeyError(key: Key, st: Parser): Option<Error> {
    match key
    case Spare => if st.spares != [] then Some(SpareTwice) else None
    case Cache => if st.cache != [] then Some(CacheTwice) else None
    case Log => if st.seenLogs then Some(LogTwice) else None
    case Raidz(_) => if st.isLog then Some(LogKind) else None
    case Mirror => None
  }

  /** A keyword and its devices have been read. */
  function AddGroup(key: Key, leaves: seq<Leaf>, st: Parser): Parser {
    match key
    case Spare => st.(spares := leaves, isLog := false)
    case Cache => st.(cache := leaves, isLog := false)
    case Log => st.(isLog := true, seenLogs := true)
    case Raidz(parity) => st.(top := st.top + [Group(true, parity, leaves, st.isLog)])
    case Mirror =>
      st.(top := st.top + [Group(false, 0, leaves, st.isLog)], nlogs := st.nlogs + if st.isLog then 1 else 0)
  }

  function AddSingle(arg: string, dev: Device, st: Parser): Parser {
    st.(top := st.top + [Single(Leaf(arg, dev, st.isLog))], nlogs := st.nlogs + if st.isLog then 1 else 0)
  }

  function Finish(st: Parser): Result<Spec> {
    if st.top == [] && st.spares == [] && st.cache == [] then Err(NoDevices)
    else if st.seenLogs && st.nlogs == 0 then Err(LogEmpty)
    else Ok(Spec(st.top, st.spares, st.cache))
  }

  function Parse(args: seq<string>, st: Parser, probe: Probe): Result<Spec>
    decreases |args|
  {
    if args == [] then Finish(st)
    else
      match KeyOf(args[0])
      case None =>
        if probe(args[0]).None? then Err(BadDevice)
        else Parse(args[1..], AddSingle(args[0], probe(args[0]).value, st), probe)
      case Some(key) =>
        if KeyError(key, st).Some? then Err(KeyError(key, st).value)
        else if key == Log then Parse(args[1..], AddGroup(Log, [], st), probe)
        else
          var devs := Devices(args[1..]);
          DevicesArePrefix(args[1..]);
          var leaves := MakeLeaves(devs, probe);
          if leaves.None? then Err(BadDevice)
          else if |devs| < MinDevices(key) then Err(TooFew)
          else Parse(args[1 + |devs|..], AddGroup(key, leaves.value, st), probe)
  }

  // ----- what a specification is about -----

  function Args(leaves: seq<Leaf>): seq<string> {
    if leaves == [] then [] else [leaves[0].arg] + Args(leaves[1..])
  }

  function TopLeaves(t: Top): seq<Leaf> {
    if t.Single? then [t.leaf] else t.children
  }

  predicate IsLog(t: Top) {
    if t.Single? then t.leaf.log else t.log
  }

  /** The device arguments of the top-level vdevs in order; all of them, or only those of log devices. */
  function TopArgs(top: seq<Top>, logOnly: bool): seq<string> {
    if top == [] then []
    else (if logOnly && !IsLog(top[0]) then [] else Args(TopLeaves(top[0]))) + TopArgs(top[1..], logOnly)
  }

  /** A raidz has more devices than parity, a mirror at least two; only mirrors are log groups. */
  predicate TopOk(t: Top) {
    t.Group? ==> (if t.raidz then 1 <= t.parity <= 2 && t.parity < |t.children| && !t.log else t.parity == 0 && 2 <= |t.children|)
  }

  predicate TopsOk(top: seq<Top>) {
    top == [] || (TopOk(top[0]) && TopsOk(top[1..]))
  }

  // ----- the words by their place: an account that does not parse -----

  /** Which part of the command line a word is in: after the last of these keywords. */
  datatype Place = Main | InLog | InSpare | InCache

  function PlaceAfter(key: Key, place: Place): Place {
    match key
    case Spare => InSpare
    case Cache => InCache
    case Log => InLog
    case _ => if place == InLog then InLog else Main
  }

  datatype Wanted = AllTop | LogTop | Spares | Caches

  predicate Wants(w: Wanted, place: Place) {
    match w
    case AllTop => place == Main || place == InLog
    case LogTop => place == InLog
    case Spares => place == InSpare
    case Caches => place == InCache
  }

  /** The device words of the command line that are in a wanted place, in order. */
  function Select(args: seq<string>, place: Place, w: Wanted): seq<string> {
    if args == [] then []
    else if KeyOf(args[0]).Some? then Select(args[1..], PlaceAfter(KeyOf(args[0]).value, place), w)
    else (if Wants(w, place) then [args[0]] else []) + Select(args[1..], place, w)
  }

  /** The raidz and mirror keywords of a command line, each with the devices up to the next keyword. */
  function GroupsIn(args: seq<string>): seq<(Key, seq<string>)> {
    if args == [] then []
    else if KeyOf(args[0]).Some? && (KeyOf(args[0]).value.Raidz? || KeyOf(args[0]).value.Mirror?) then
      [(KeyOf(args[0]).value, Devices(args[1..]))] + GroupsIn(args[1..])
    else GroupsIn(args[1..])
  }

  function GroupsOf(top: seq<Top>): seq<(Key, seq<string>)> {
    if top == [] then []
    else if top[0].Single? then GroupsOf(top[1..])
    else [(if top[0].raidz then Raidz(top[0].parity) else Mirror, Args(top[0].children))] + GroupsOf(top[1..])
  }
}
