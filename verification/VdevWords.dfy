/**
 Command lines word by word: what each keyword stands for, how many devices it needs and what it builds.
 */
module VdevWords {
  import opened VdevModel

  const KEYWORDS: set<string> := {"raidz", "raidz1", "raidz2", "mirror", "spare", "log", "cache"}

  predicate Plain(devs: seq<string>) {
    devs == [] || (devs[0] !in KEYWORDS && Plain(devs[1..]))
  }

  predicate Open(devs: seq<string>, probe: Probe) {
    devs == [] || (probe(devs[0]).Some? && Open(devs[1..], probe))
  }

  /** The leaves that these device words stand for, in order. */
  function Leaves(devs: seq<string>, probe: Probe): seq<Leaf>
    requires Open(devs, probe)
  {
    if devs == [] then [] else [Leaf(devs[0], probe(devs[0]).value, false)] + Leaves(devs[1..], probe)
  }

  /** The same devices, each on its own. */
  function Singles(devs: seq<string>, probe: Probe, log: bool): seq<Top>
    requires Open(devs, probe)
  {
    if devs == [] then []
    else [Single(Leaf(devs[0], probe(devs[0]).value, log))] + Singles(devs[1..], probe, log)
  }

  /** These words are keywords and no others. */
  lemma DeviceWords(word: string)
    ensures KeyOf(word).None? <==> word !in KEYWORDS
  {
  }

  lemma {:induction false} PlainDevices(devs: seq<string>, rest: seq<string>)
    requires Plain(devs) && (rest == [] || rest[0] in KEYWORDS)
    ensures Devices(devs + rest) == devs
  {
    if devs == [] {
      assert devs + rest == rest;
    } else {
      PlainDevices(devs[1..], rest);
      assert (devs + rest)[1..] == devs[1..] + rest;
    }
  }

  lemma {:induction false} OpenLeaves(devs: seq<string>, probe: Probe)
    ensures MakeLeaves(devs, probe) == if Open(devs, probe) then Some(Leaves(devs, probe)) else None
  {
    if devs != [] {
      OpenLeaves(devs[1..], probe);
    }
  }

  // ----- a keyword, its devices and what follows -----

  /** What the parser does at a keyword whose devices are `devs`. */
  lemma {:induction false} GroupStep(word: string, devs: seq<string>, rest: seq<string>, st: Parser, probe: Probe)
    requires word in KEYWORDS && word != "log" && Plain(devs) && (rest == [] || rest[0] in KEYWORDS)
    ensures var key := KeyOf(word).value;
            Parse([word] + devs + rest, st, probe) ==
            if KeyError(key, st).Some? then Err(KeyError(key, st).value)
            else if !Open(devs, probe) then Err(BadDevice)
            else if |devs| < MinDevices(key) then Err(TooFew)
            else Parse(rest, AddGroup(key, Leaves(devs, probe), st), probe)
  {
    var args := [word] + devs + rest;
    assert args[1..] == devs + rest && args[1 + |devs|..] == rest;
    PlainDevices(devs, rest);
    OpenLeaves(devs, probe);
  }

  /** raidz, raidz1 and raidz2: so much parity, at least one device more, and not for log devices. */
  lemma {:induction false} RaidzWords(word: string, devs: seq<string>, rest: seq<string>, st: Parser, probe: Probe)
    requires word in {"raidz", "raidz1", "raidz2"} && Plain(devs) && (rest == [] || rest[0] in KEYWORDS)
    ensures var parity := if word == "raidz2" then 2 else 1;
            Parse([word] + devs + rest, st, probe) ==
            if st.isLog then Err(LogKind)
            else if !Open(devs, probe) then Err(BadDevice)
            else if |devs| <= parity then Err(TooFew)
            else Parse(rest, st.(top := st.top + [Group(true, parity, Leaves(devs, probe), false)]), probe)
  {
    GroupStep(word, devs, rest, st, probe);
  }

  /** mirror: at least two devices; after log it is a log device. */
  lemma {:induction false} MirrorWords(devs: seq<string>, rest: seq<string>, st: Parser, probe: Probe)
    requires Plain(devs) && (rest == [] || rest[0] in KEYWORDS)
    ensures Parse(["mirror"] + devs + rest, st, probe) ==
            if !Open(devs, probe) then Err(BadDevice)
            else if |devs| < 2 then Err(TooFew)
            else Parse(rest, st.(top := st.top + [Group(false, 0, Leaves(devs, probe), st.isLog)],
                                 nlogs := st.nlogs + if st.isLog then 1 else 0), probe)
  {
    GroupStep("mirror", devs, rest, st, probe);
  }

  /** spare and cache: at least one device, and only once each. Both end the log devices. */
  lemma {:induction false} SpareWords(devs: seq<string>, rest: seq<string>, st: Parser, probe: Probe)
    requires Plain(devs) && (rest == [] || rest[0] in KEYWORDS)
    ensures Parse(["spare"] + devs + rest, st, probe) ==
            if st.spares != [] then Err(SpareTwice)
            else if !Open(devs, probe) then Err(BadDevice)
            else if devs == [] then Err(TooFew)
            else Parse(rest, st.(spares := Leaves(devs, probe), isLog := false), probe)
    ensures Parse(["cache"] + devs + rest, st, probe) ==
            if st.cache != [] then Err(CacheTwice)
            else if !Open(devs, probe) then Err(BadDevice)
            else if devs == [] then Err(TooFew)
            else Parse(rest, st.(cache := Leaves(devs, probe), isLog := false), probe)
  {
    GroupStep("spare", devs, rest, st, probe);
    GroupStep("cache", devs, rest, st, probe);
  }

  /** log: only once; what follows are log devices. */
  lemma {:induction false} LogWord(rest: seq<string>, st: Parser, probe: Probe)
    ensures Parse(["log"] + rest, st, probe) ==
            if st.seenLogs then Err(LogTwice) else Parse(rest, st.(isLog := true, seenLogs := true), probe)
  {
    assert (["log"] + rest)[1..] == rest;
  }

  /** Every other word is a device of its own, where no keyword has claimed it. */
  lemma {:induction false} PlainWords(devs: seq<string>, rest: seq<string>, st: Parser, probe: Probe)
    requires Plain(devs)
    ensures Parse(devs + rest, st, probe) ==
            if !Open(devs, probe) then Err(BadDevice)
            else Parse(rest, st.(top := st.top + Singles(devs, probe, st.isLog),
                                 nlogs := st.nlogs + if st.isLog then |devs| else 0), probe)
    decreases |devs|
  {
    if devs == [] {
      assert devs + rest == rest && st.top + [] == st.top;
    } else {
      assert (devs + rest)[1..] == devs[1..] + rest;
      if probe(devs[0]).Some? {
        var st' := AddSingle(devs[0], probe(devs[0]).value, st);
        PlainWords(devs[1..], rest, st', probe);
        if Open(devs, probe) {
          assert st'.top + Singles(devs[1..], probe, st.isLog) == st.top + Singles(devs, probe, st.isLog);
        }
      }
    }
  }

  // ----- whole command lines -----

  /** A raidz alone: the pool has one group of the right parity over the devices in order, if there are enough. */
  lemma {:induction false} OneRaidz(word: string, devs: seq<string>, probe: Probe)
    requires word in {"raidz", "raidz1", "raidz2"} && Plain(devs) && Open(devs, probe)
    ensures var parity := if word == "raidz2" then 2 else 1;
            Parse([word] + devs, START, probe) ==
            if |devs| < parity + 1 then Err(TooFew) else Ok(Spec([Group(true, parity, Leaves(devs, probe), false)], [], []))
  {
    RaidzWords(word, devs, [], START, probe);
    var group := Group(true, if word == "raidz2" then 2 else 1, Leaves(devs, probe), false);
    assert START.top + [group] == [group];
    assert [word] + devs + [] == [word] + devs;
  }

  lemma {:induction false} OneMirror(devs: seq<string>, probe: Probe)
    requires Plain(devs) && Open(devs, probe)
    ensures Parse(["mirror"] + devs, START, probe) ==
            if |devs| < 2 then Err(TooFew) else Ok(Spec([Group(false, 0, Leaves(devs, probe), false)], [], []))
  {
    MirrorWords(devs, [], START, probe);
    var group := Group(false, 0, Leaves(devs, probe), false);
    assert START.top + [group] == [group];
    assert ["mirror"] + devs + [] == ["mirror"] + devs;
  }

  /** Spares or caches alone. */
  lemma {:induction false} OneList(devs: seq<string>, probe: Probe)
    requires Plain(devs) && Open(devs, probe)
    ensures Parse(["spare"] + devs, START, probe) == if devs == [] then Err(TooFew) else Ok(Spec([], Leaves(devs, probe), []))
    ensures Parse(["cache"] + devs, START, probe) == if devs == [] then Err(TooFew) else Ok(Spec([], [], Leaves(devs, probe)))
  {
    SpareWords(devs, [], START, probe);
    assert ["spare"] + devs + [] == ["spare"] + devs && ["cache"] + devs + [] == ["cache"] + devs;
    assert devs != [] ==> Leaves(devs, probe) != [];
  }

  /** Plain devices alone. */
  lemma {:induction false} OnlyDevices(devs: seq<string>, probe: Probe)
    requires Plain(devs) && Open(devs, probe)
    ensures Parse(devs, START, probe) == if devs == [] then Err(NoDevices) else Ok(Spec(Singles(devs, probe, false), [], []))
  {
    PlainWords(devs, [], START, probe);
    assert devs + [] == devs && START.top + Singles(devs, probe, false) == Singles(devs, probe, false);
  }

  /** Log devices alone. */
  lemma {:induction false} OnlyLogDevices(devs: seq<string>, probe: Probe)
    requires Plain(devs) && Open(devs, probe)
    ensures Parse(["log"] + devs, START, probe) ==
            if devs == [] then Err(NoDevices) else Ok(Spec(Singles(devs, probe, true), [], []))
  {
    var st := START.(isLog := true, seenLogs := true);
    LogWord(devs, START, probe);
    PlainWords(devs, [], st, probe);
    assert devs + [] == devs && st.top + Singles(devs, probe, true) == Singles(devs, probe, true);
  }
}
