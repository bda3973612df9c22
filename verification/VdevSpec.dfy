/**
 What construct_spec makes of a command line, and when it accepts one.
 */
module VdevSpec {
  import opened VdevModel

  lemma Chain(a: seq<string>, b: seq<string>, c: seq<string>)
    ensures (a + b) + c == a + (b + c)
  {
  }

  function ArgsOf(t: Top, logOnly: bool): seq<string> {
    if logOnly && !IsLog(t) then [] else Args(TopLeaves(t))
  }

  lemma {:induction false} TopsAppend(a: seq<Top>, t: Top, logOnly: bool)
    ensures TopArgs(a + [t], logOnly) == TopArgs(a, logOnly) + ArgsOf(t, logOnly)
  {
    if a == [] {
      assert a + [t] == [t] && [t][1..] == [];
      assert TopArgs([t], logOnly) == ArgsOf(t, logOnly) + [];
    } else {
      assert (a + [t])[1..] == a[1..] + [t];
      TopsAppend(a[1..], t, logOnly);
      Chain(ArgsOf(a[0], logOnly), TopArgs(a[1..], logOnly), ArgsOf(t, logOnly));
    }
  }

  lemma {:induction false} TopsOkAppend(a: seq<Top>, t: Top)
    ensures TopsOk(a + [t]) <==> TopsOk(a) && TopOk(t)
  {
    if a == [] {
      assert a + [t] == [t] && [t][1..] == [];
    } else {
      assert (a + [t])[1..] == a[1..] + [t];
      TopsOkAppend(a[1..], t);
    }
  }

  lemma {:induction false} LeavesArgs(devs: seq<string>, probe: Probe)
    requires MakeLeaves(devs, probe).Some?
    ensures Args(MakeLeaves(devs, probe).value) == devs && |MakeLeaves(devs, probe).value| == |devs|
  {
    if devs != [] {
      LeavesArgs(devs[1..], probe);
    }
  }

  // ----- selecting words by place -----

  /** The words up to the next keyword are all in the same place. */
  lemma {:induction false} SelectDevices(args: seq<string>, place: Place, w: Wanted)
    ensures |Devices(args)| <= |args|
    ensures Select(args, place, w) ==
            (if Wants(w, place) then Devices(args) else []) + Select(args[|Devices(args)|..], place, w)
  {
    DevicesArePrefix(args);
    if args != [] && KeyOf(args[0]).None? {
      SelectDevices(args[1..], place, w);
      var tail := args[|Devices(args)|..];
      assert args[1..][|Devices(args[1..])|..] == tail;
      if Wants(w, place) {
        Chain([args[0]], Devices(args[1..]), Select(tail, place, w));
      }
    } else {
      assert args[0..] == args;
    }
  }

  lemma {:induction false} SelectGroup(args: seq<string>, place: Place, w: Wanted, key: Key)
    requires args != [] && KeyOf(args[0]) == Some(key)
    ensures 1 + |Devices(args[1..])| <= |args|
    ensures var place' := PlaceAfter(key, place);
            Select(args, place, w) ==
              (if Wants(w, place') then Devices(args[1..]) else []) + Select(args[1 + |Devices(args[1..])|..], place', w)
  {
    SelectDevices(args[1..], PlaceAfter(key, place), w);
    assert args[1..][|Devices(args[1..])|..] == args[1 + |Devices(args[1..])|..];
  }

  /** The parser and the account of places agree on where they are. */
  predicate InStep(args: seq<string>, st: Parser, place: Place) {
    && st.isLog == (place == InLog)
    && (place == InSpare || place == InCache ==> args == [] || KeyOf(args[0]).Some?)
  }

  lemma AfterGroup(args: seq<string>, st: Parser, place: Place, key: Key, leaves: seq<Leaf>)
    requires args != [] && KeyOf(args[0]) == Some(key) && InStep(args, st, place) && KeyError(key, st).None?
    ensures 1 + |Devices(args[1..])| <= |args|
    ensures key != Log ==> InStep(args[1 + |Devices(args[1..])|..], AddGroup(key, leaves, st), PlaceAfter(key, place))
    ensures key == Log ==> InStep(args[1..], AddGroup(key, leaves, st), PlaceAfter(key, place))
  {
    DevicesArePrefix(args[1..]);
  }

  /** The arguments of one of the lists, in the parser and in the finished specification. */
  function Held(st: Parser, w: Wanted): seq<string> {
    match w
    case AllTop => TopArgs(st.top, false)
    case LogTop => TopArgs(st.top, true)
    case Spares => Args(st.spares)
    case Caches => Args(st.cache)
  }

  function Listed(spec: Spec, w: Wanted): seq<string> {
    match w
    case AllTop => TopArgs(spec.top, false)
    case LogTop => TopArgs(spec.top, true)
    case Spares => Args(spec.spares)
    case Caches => Args(spec.cache)
  }

  lemma SingleHeld(arg: string, dev: Device, st: Parser, place: Place, w: Wanted)
    requires st.isLog == (place == InLog) && (place == Main || place == InLog)
    ensures Held(AddSingle(arg, dev, st), w) == Held(st, w) + if Wants(w, place) then [arg] else []
  {
    var t := Single(Leaf(arg, dev, st.isLog));
    TopsAppend(st.top, t, w == LogTop);
    assert TopLeaves(t)[1..] == [] && Args(TopLeaves(t)) == [arg];
  }

  lemma {:induction false} GroupHeld(key: Key, leaves: seq<Leaf>, st: Parser, place: Place, w: Wanted)
    requires KeyError(key, st).None? && key != Log && st.isLog == (place == InLog)
    ensures Held(AddGroup(key, leaves, st), w) ==
            Held(st, w) + if Wants(w, PlaceAfter(key, place)) then Args(leaves) else []
  {
    if key.Raidz? || key.Mirror? {
      var t := if key.Raidz? then Group(true, key.parity, leaves, st.isLog) else Group(false, 0, leaves, st.isLog);
      TopsAppend(st.top, t, w == LogTop);
    }
  }

  /** One group of the parse. */
  lemma GroupStep(args: seq<string>, st: Parser, probe: Probe, key: Key) returns (leaves: seq<Leaf>, rest: seq<string>)
    requires args != [] && KeyOf(args[0]) == Some(key) && key != Log && Parse(args, st, probe).Ok?
    ensures |rest| < |args| && 1 + |Devices(args[1..])| <= |args| && rest == args[1 + |Devices(args[1..])|..]
    ensures KeyError(key, st).None? && Args(leaves) == Devices(args[1..]) && |leaves| >= MinDevices(key)
    ensures Parse(args, st, probe) == Parse(rest, AddGroup(key, leaves, st), probe)
  {
    var devs := Devices(args[1..]);
    DevicesArePrefix(args[1..]);
    LeavesArgs(devs, probe);
    leaves, rest := MakeLeaves(devs, probe).value, args[1 + |devs|..];
  }

  /** Every device word ends up in the list that its place says, once and in order. */
  lemma {:induction false} ParseLists(args: seq<string>, st: Parser, place: Place, probe: Probe, w: Wanted)
    requires Parse(args, st, probe).Ok? && InStep(args, st, place)
    ensures Listed(Parse(args, st, probe).value, w) == Held(st, w) + Select(args, place, w)
    decreases |args|
  {
    if args == [] {
    } else if KeyOf(args[0]).None? {
      var dev := probe(args[0]).value;
      ParseLists(args[1..], AddSingle(args[0], dev, st), place, probe, w);
      SingleHeld(args[0], dev, st, place, w);
      Chain(Held(st, w), if Wants(w, place) then [args[0]] else [], Select(args[1..], place, w));
    } else {
      var key := KeyOf(args[0]).value;
      var place' := PlaceAfter(key, place);
      if key == Log {
        AfterGroup(args, st, place, key, []);
        ParseLists(args[1..], AddGroup(Log, [], st), place', probe, w);
      } else {
        var leaves, rest := GroupStep(args, st, probe, key);
        AfterGroup(args, st, place, key, leaves);
        ParseLists(rest, AddGroup(key, leaves, st), place', probe, w);
        GroupHeld(key, leaves, st, place, w);
        SelectGroup(args, place, w, key);
        Chain(Held(st, w), if Wants(w, place') then Args(leaves) else [], Select(rest, place', w));
      }
    }
  }

  /** Every group of the specification is large enough, and log groups are mirrors. */
  lemma {:induction false} ParseTops(args: seq<string>, st: Parser, probe: Probe)
    requires Parse(args, st, probe).Ok? && TopsOk(st.top)
    ensures TopsOk(Parse(args, st, probe).value.top)
    decreases |args|
  {
    if args == [] {
    } else if KeyOf(args[0]).None? {
      var dev := probe(args[0]).value;
      TopsOkAppend(st.top, Single(Leaf(args[0], dev, st.isLog)));
      ParseTops(args[1..], AddSingle(args[0], dev, st), probe);
    } else {
      var key := KeyOf(args[0]).value;
      if key == Log {
        ParseTops(args[1..], AddGroup(Log, [], st), probe);
      } else {
        var leaves, rest := GroupStep(args, st, probe, key);
        GroupTop(key, leaves, st);
        ParseTops(rest, AddGroup(key, leaves, st), probe);
      }
    }
  }

  lemma GroupTop(key: Key, leaves: seq<Leaf>, st: Parser)
    requires TopsOk(st.top) && KeyError(key, st).None? && |leaves| >= MinDevices(key)
    requires key.Raidz? ==> 1 <= key.parity <= 2
    ensures TopsOk(AddGroup(key, leaves, st).top)
  {
    if key.Raidz? || key.Mirror? {
      var t := if key.Raidz? then Group(true, key.parity, leaves, st.isLog) else Group(false, 0, leaves, st.isLog);
      TopsOkAppend(st.top, t);
    }
  }

  lemma {:induction false} GroupsAppend(a: seq<Top>, t: Top)
    ensures GroupsOf(a + [t]) == GroupsOf(a) + GroupsOf([t])
  {
    if a == [] {
      assert a + [t] == [t];
    } else {
      assert (a + [t])[1..] == a[1..] + [t];
      GroupsAppend(a[1..], t);
    }
  }

  lemma {:induction false} GroupsSkip(args: seq<string>)
    ensures |Devices(args)| <= |args| && GroupsIn(args) == GroupsIn(args[|Devices(args)|..])
  {
    DevicesArePrefix(args);
    if args != [] && KeyOf(args[0]).None? {
      GroupsSkip(args[1..]);
      assert args[1..][|Devices(args[1..])|..] == args[|Devices(args)|..];
    } else {
      assert args[0..] == args;
    }
  }

  lemma AddedGroup(key: Key, leaves: seq<Leaf>, st: Parser)
    ensures GroupsOf(AddGroup(key, leaves, st).top) ==
            GroupsOf(st.top) + if key.Raidz? || key.Mirror? then [(key, Args(leaves))] else []
  {
    if key.Raidz? || key.Mirror? {
      var t := if key.Raidz? then Group(true, key.parity, leaves, st.isLog) else Group(false, 0, leaves, st.isLog);
      GroupsAppend(st.top, t);
      assert [t][1..] == [];
    }
  }

  /** The groups of the specification are the raidz and mirror keywords in order, each with its own devices. */
  lemma {:induction false} ParseGroups(args: seq<string>, st: Parser, probe: Probe)
    requires Parse(args, st, probe).Ok?
    ensures GroupsOf(Parse(args, st, probe).value.top) == GroupsOf(st.top) + GroupsIn(args)
    decreases |args|
  {
    if args == [] {
    } else if KeyOf(args[0]).None? {
      var dev := probe(args[0]).value;
      GroupsAppend(st.top, Single(Leaf(args[0], dev, st.isLog)));
      ParseGroups(args[1..], AddSingle(args[0], dev, st), probe);
    } else {
      var key := KeyOf(args[0]).value;
      if key == Log {
        ParseGroups(args[1..], AddGroup(Log, [], st), probe);
      } else {
        var leaves, rest := GroupStep(args, st, probe, key);
        AddedGroup(key, leaves, st);
        ParseGroups(rest, AddGroup(key, leaves, st), probe);
        GroupsSkip(args[1..]);
        assert args[1..][|Devices(args[1..])|..] == rest;
      }
    }
  }

  /** Whenever construct_spec succeeds: each list holds exactly the device words of its part of the command line, in
      order; log devices are those after `log` with no `spare` or `cache` in between; the groups are the raidz and mirror
      keywords with their devices; and every group is large enough. */
  lemma {:induction false} SpecIsFaithful(args: seq<string>, probe: Probe)
    requires Parse(args, START, probe).Ok?
    ensures var spec := Parse(args, START, probe).value;
            && TopArgs(spec.top, false) == Select(args, Main, AllTop)
            && TopArgs(spec.top, true) == Select(args, Main, LogTop)
            && Args(spec.spares) == Select(args, Main, Spares)
            && Args(spec.cache) == Select(args, Main, Caches)
            && GroupsOf(spec.top) == GroupsIn(args)
            && TopsOk(spec.top)
  {
    ParseGroups(args, START, probe);
    ParseLists(args, START, Main, probe, AllTop);
    ParseLists(args, START, Main, probe, LogTop);
    ParseLists(args, START, Main, probe, Spares);
    ParseLists(args, START, Main, probe, Caches);
    ParseTops(args, START, probe);
  }

  // ----- which command lines are accepted -----

  predicate AllProbe(args: seq<string>, probe: Probe) {
    args == [] || ((KeyOf(args[0]).None? ==> probe(args[0]).Some?) && AllProbe(args[1..], probe))
  }

  /** Every keyword but `log` is followed by the devices it needs. */
  predicate Enough(args: seq<string>) {
    args == [] ||
    (&& (KeyOf(args[0]).Some? && KeyOf(args[0]).value != Log ==>
           |Devices(args[1..])| >= MinDevices(KeyOf(args[0]).value))
     && Enough(args[1..]))
  }

  /** The keyword comes up at most once more, or not at all when it was seen before. */
  predicate Once(args: seq<string>, key: Key, seen: bool) {
    args == [] ||
    if KeyOf(args[0]) == Some(key) then !seen && Once(args[1..], key, true) else Once(args[1..], key, seen)
  }

  predicate NoLogRaidz(args: seq<string>, place: Place) {
    args == [] ||
    match KeyOf(args[0])
    case None => NoLogRaidz(args[1..], place)
    case Some(key) => !(key.Raidz? && place == InLog) && NoLogRaidz(args[1..], PlaceAfter(key, place))
  }

  predicate HasKey(args: seq<string>, key: Key) {
    args != [] && (KeyOf(args[0]) == Some(key) || HasKey(args[1..], key))
  }

  predicate HasDevice(args: seq<string>) {
    args != [] && (KeyOf(args[0]).None? || HasDevice(args[1..]))
  }

  /** What the remaining words must be like for the parser to end well. */
  predicate Acceptable(args: seq<string>, st: Parser, place: Place, probe: Probe) {
    && AllProbe(args, probe) && Enough(args) && NoLogRaidz(args, place)
    && Once(args, Spare, st.spares != []) && Once(args, Cache, st.cache != []) && Once(args, Log, st.seenLogs)
    && (st.top != [] || st.spares != [] || st.cache != [] || HasDevice(args))
    && LogsFilled(args, st, place)
  }

  lemma {:induction false} SkipDevices(args: seq<string>, place: Place, probe: Probe)
    ensures |Devices(args)| <= |args|
    ensures var rest := args[|Devices(args)|..];
            && (AllProbe(args, probe) <==> MakeLeaves(Devices(args), probe).Some? && AllProbe(rest, probe))
            && (Enough(args) <==> Enough(rest)) && (NoLogRaidz(args, place) <==> NoLogRaidz(rest, place))
            && (HasDevice(args) <==> Devices(args) != [] || HasDevice(rest))
            && (HasKey(args, Log) <==> HasKey(rest, Log))
  {
    DevicesArePrefix(args);
    if args != [] && KeyOf(args[0]).None? {
      SkipDevices(args[1..], place, probe);
      assert args[1..][|Devices(args[1..])|..] == args[|Devices(args)|..];
    } else {
      assert args[0..] == args;
    }
  }

  lemma {:induction false} SkipOnce(args: seq<string>, key: Key, seen: bool)
    ensures |Devices(args)| <= |args|
    ensures Once(args, key, seen) <==> Once(args[|Devices(args)|..], key, seen)
  {
    DevicesArePrefix(args);
    if args != [] && KeyOf(args[0]).None? {
      SkipOnce(args[1..], key, seen);
      assert args[1..][|Devices(args[1..])|..] == args[|Devices(args)|..];
    } else {
      assert args[0..] == args;
    }
  }

  lemma SingleAccepts(args: seq<string>, st: Parser, place: Place, probe: Probe, dev: Device)
    requires args != [] && KeyOf(args[0]).None? && InStep(args, st, place) && probe(args[0]) == Some(dev)
    ensures Acceptable(args, st, place, probe) <==> Acceptable(args[1..], AddSingle(args[0], dev, st), place, probe)
  {
  }

  lemma LogAccepts(args: seq<string>, st: Parser, place: Place, probe: Probe)
    requires args != [] && KeyOf(args[0]) == Some(Log)
    ensures Acceptable(args, st, place, probe) <==>
            !st.seenLogs && Acceptable(args[1..], AddGroup(Log, [], st), InLog, probe)
  {
  }

  /** If there are logs, one of them has a device. */
  predicate LogsFilled(args: seq<string>, st: Parser, place: Place) {
    st.seenLogs || HasKey(args, Log) ==> st.nlogs > 0 || Select(args, place, LogTop) != []
  }

  lemma GroupLogs(args: seq<string>, st: Parser, place: Place, probe: Probe, key: Key, leaves: seq<Leaf>)
    requires args != [] && KeyOf(args[0]) == Some(key) && key != Log && InStep(args, st, place)
    requires |Devices(args[1..])| > 0 && KeyError(key, st).None? && 1 + |Devices(args[1..])| <= |args|
    ensures LogsFilled(args, st, place) <==>
            LogsFilled(args[1 + |Devices(args[1..])|..], AddGroup(key, leaves, st), PlaceAfter(key, place))
  {
    var rest := args[1 + |Devices(args[1..])|..];
    assert args[1..][|Devices(args[1..])|..] == rest;
    SkipDevices(args[1..], PlaceAfter(key, place), probe);
    SelectGroup(args, place, LogTop, key);
  }

  /** A group keyword, its devices, and the rest. */
  lemma GroupAccepts(args: seq<string>, st: Parser, place: Place, probe: Probe, key: Key, leaves: seq<Leaf>)
    requires args != [] && KeyOf(args[0]) == Some(key) && key != Log && InStep(args, st, place)
    requires |leaves| == |Devices(args[1..])| >= MinDevices(key) && MakeLeaves(Devices(args[1..]), probe) == Some(leaves)
    requires KeyError(key, st).None? && 1 + |Devices(args[1..])| <= |args|
    ensures Acceptable(args, st, place, probe) <==>
            Acceptable(args[1 + |Devices(args[1..])|..], AddGroup(key, leaves, st), PlaceAfter(key, place), probe)
  {
    assert args[1..][|Devices(args[1..])|..] == args[1 + |Devices(args[1..])|..];
    SkipDevices(args[1..], PlaceAfter(key, place), probe);
    GroupLogs(args, st, place, probe, key, leaves);
    GroupOnce(args, key, Spare, st.spares != []);
    GroupOnce(args, key, Cache, st.cache != []);
    GroupOnce(args, key, Log, st.seenLogs);
  }

  lemma GroupOnce(args: seq<string>, key: Key, k: Key, seen: bool)
    requires args != [] && KeyOf(args[0]) == Some(key) && 1 + |Devices(args[1..])| <= |args| && (key == k ==> !seen)
    ensures Once(args, k, seen) <==> Once(args[1 + |Devices(args[1..])|..], k, seen || key == k)
  {
    SkipOnce(args[1..], k, seen || key == k);
    assert args[1..][|Devices(args[1..])|..] == args[1 + |Devices(args[1..])|..];
  }

  /** The conditions under which a group keyword is rejected are among those for the whole line. */
  lemma GroupRejects(args: seq<string>, st: Parser, place: Place, probe: Probe, key: Key)
    requires args != [] && KeyOf(args[0]) == Some(key) && key != Log && InStep(args, st, place)
    requires Acceptable(args, st, place, probe)
    ensures KeyError(key, st).None? && MakeLeaves(Devices(args[1..]), probe).Some?
    ensures |Devices(args[1..])| >= MinDevices(key)
  {
    SkipDevices(args[1..], PlaceAfter(key, place), probe);
  }

  /** The parser accepts exactly the acceptable lines. */
  lemma {:induction false} ParseAccepts(args: seq<string>, st: Parser, place: Place, probe: Probe)
    requires InStep(args, st, place)
    ensures Parse(args, st, probe).Ok? <==> Acceptable(args, st, place, probe)
    decreases |args|
  {
    if args == [] {
    } else if KeyOf(args[0]).None? {
      if probe(args[0]).Some? {
        SingleAccepts(args, st, place, probe, probe(args[0]).value);
        ParseAccepts(args[1..], AddSingle(args[0], probe(args[0]).value, st), place, probe);
      }
    } else if KeyOf(args[0]).value == Log {
      LogAccepts(args, st, place, probe);
      if !st.seenLogs {
        AfterGroup(args, st, place, Log, []);
        ParseAccepts(args[1..], AddGroup(Log, [], st), InLog, probe);
      }
    } else {
      GroupCase(args, st, place, probe, KeyOf(args[0]).value);
    }
  }

  lemma {:induction false} GroupCase(args: seq<string>, st: Parser, place: Place, probe: Probe, key: Key)
    requires InStep(args, st, place) && args != [] && KeyOf(args[0]) == Some(key) && key != Log
    ensures Parse(args, st, probe).Ok? <==> Acceptable(args, st, place, probe)
    decreases |args|, 0
  {
    var devs := Devices(args[1..]);
    DevicesArePrefix(args[1..]);
    if KeyError(key, st).None? && MakeLeaves(devs, probe).Some? && |devs| >= MinDevices(key) {
      LeavesArgs(devs, probe);
      var leaves := MakeLeaves(devs, probe).value;
      GroupAccepts(args, st, place, probe, key, leaves);
      AfterGroup(args, st, place, key, leaves);
      ParseAccepts(args[1 + |devs|..], AddGroup(key, leaves, st), PlaceAfter(key, place), probe);
    } else if Acceptable(args, st, place, probe) {
      GroupRejects(args, st, place, probe, key);
    }
  }

  /** construct_spec succeeds exactly when all devices can be opened, every keyword but `log` has the devices it needs,
      `spare`, `cache` and `log` come up at most once, no raidz is a log device, there is some device, and `log` is
      followed by one. */
  lemma {:induction false} Accepted(args: seq<string>, probe: Probe)
    ensures Parse(args, START, probe).Ok? <==>
            && AllProbe(args, probe) && Enough(args) && NoLogRaidz(args, Main) && HasDevice(args)
            && Once(args, Spare, false) && Once(args, Cache, false) && Once(args, Log, false)
            && (HasKey(args, Log) ==> Select(args, Main, LogTop) != [])
  {
    ParseAccepts(args, START, Main, probe);
  }
}
