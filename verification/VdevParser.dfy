/**
 construct_spec as it runs: one loop over the words, and an inner loop over the devices of a group.
 */
module VdevParser {
  import opened VdevModel
  import opened VdevSpec

  lemma {:induction false} LeavesSnoc(devs: seq<string>, word: string, probe: Probe)
    ensures MakeLeaves(devs, probe).None? ==> MakeLeaves(devs + [word], probe).None?
    ensures MakeLeaves(devs, probe).Some? ==>
              MakeLeaves(devs + [word], probe) ==
                if probe(word).None? then None
                else Some(MakeLeaves(devs, probe).value + [Leaf(word, probe(word).value, false)])
  {
    if devs == [] {
      assert [word][1..] == [] && devs + [word] == [word];
      assert probe(word).Some? ==>
          var leaf := Leaf(word, probe(word).value, false); [leaf] + [] == [] + [leaf];
    } else {
      assert (devs + [word])[1..] == devs[1..] + [word];
      LeavesSnoc(devs[1..], word, probe);
      if MakeLeaves(devs, probe).Some? && probe(word).Some? {
        var first, rest := Leaf(devs[0], probe(devs[0]).value, false), MakeLeaves(devs[1..], probe).value;
        var leaf := Leaf(word, probe(word).value, false);
        assert [first] + (rest + [leaf]) == ([first] + rest) + [leaf];
      }
    }
  }

  lemma {:induction false} LeavesAppend(a: seq<string>, b: seq<string>, probe: Probe)
    requires MakeLeaves(a, probe).None?
    ensures MakeLeaves(a + b, probe).None?
  {
    assert (a + b)[1..] == a[1..] + b;
    if probe(a[0]).Some? {
      LeavesAppend(a[1..], b, probe);
    }
  }

  lemma DevicesFrom(args: seq<string>, c: nat)
    requires c < |args|
    ensures Devices(args[c..]) == if KeyOf(args[c]).Some? then [] else [args[c]] + Devices(args[c + 1..])
  {
    assert args[c..][1..] == args[c + 1..];
  }

  /** One more device of a group has been read, or could not be opened. */
  lemma ReadOne(args: seq<string>, i: nat, c: nat, probe: Probe, read: seq<Leaf>)
    requires i <= c < |args| && KeyOf(args[c]).None? && Devices(args[i..]) == args[i..c] + Devices(args[c..])
    requires MakeLeaves(args[i..c], probe) == Some(read)
    ensures Devices(args[i..]) == args[i..c + 1] + Devices(args[c + 1..])
    ensures probe(args[c]).Some? ==>
              MakeLeaves(args[i..c + 1], probe) == Some(read + [Leaf(args[c], probe(args[c]).value, false)])
    ensures probe(args[c]).None? ==> MakeLeaves(Devices(args[i..]), probe).None?
  {
    DevicesFrom(args, c);
    LeavesSnoc(args[i..c], args[c], probe);
    assert args[i..c] + [args[c]] == args[i..c + 1];
    Regroup(args[i..c], args[c], Devices(args[c + 1..]));
    if probe(args[c]).None? {
      LeavesAppend(args[i..c + 1], Devices(args[c + 1..]), probe);
    }
  }

  /** The inner loop: the devices of the group whose keyword is just before `i`. */
  method ReadGroup(args: seq<string>, i: nat, probe: Probe) returns (c: nat, leaves: Option<seq<Leaf>>)
    requires i <= |args|
    ensures leaves == MakeLeaves(Devices(args[i..]), probe)
    ensures leaves.Some? ==> c == i + |Devices(args[i..])|
  {
    c := i;
    var read: seq<Leaf> := [];
    assert args[i..i] == [] && [] + Devices(args[i..]) == Devices(args[i..]);
    while c < |args| && KeyOf(args[c]).None?
      invariant i <= c <= |args| && Devices(args[i..]) == args[i..c] + Devices(args[c..])
      invariant MakeLeaves(args[i..c], probe) == Some(read)
    {
      ReadOne(args, i, c, probe, read);
      if probe(args[c]).None? {
        return c, None;
      }
      read := read + [Leaf(args[c], probe(args[c]).value, false)];
      c := c + 1;
    }
    assert Devices(args[c..]) == [];
    assert args[i..c] + [] == args[i..c];
    leaves := Some(read);
  }

  lemma Regroup(a: seq<string>, w: string, b: seq<string>)
    ensures a + ([w] + b) == (a + [w]) + b
  {
  }

  lemma Suffix(args: seq<string>, i: nat, k: nat)
    requires i <= |args| && k <= |args| - i
    ensures args[i..][k..] == args[i + k..]
  {
  }

  /** construct_spec. */
  method ConstructSpec(args: seq<string>, probe: Probe) returns (r: Result<Spec>)
    ensures r == Parse(args, START, probe)
    ensures r.Ok? ==>
              && TopArgs(r.value.top, false) == Select(args, Main, AllTop)
              && Args(r.value.spares) == Select(args, Main, Spares) && Args(r.value.cache) == Select(args, Main, Caches)
              && TopsOk(r.value.top)
  {
    var i, st := 0, START;
    assert args[0..] == args;
    while i < |args|
      invariant i <= |args| && Parse(args[i..], st, probe) == Parse(args, START, probe)
    {
      Suffix(args, i, 1);
      var key := KeyOf(args[i]);
      if key.None? {
        if probe(args[i]).None? {
          return Err(BadDevice);
        }
        st := AddSingle(args[i], probe(args[i]).value, st);
        i := i + 1;
      } else if KeyError(key.value, st).Some? {
        return Err(KeyError(key.value, st).value);
      } else if key.value == Log {
        st := AddGroup(Log, [], st);
        i := i + 1;
      } else {
        DevicesArePrefix(args[i + 1..]);
        var c, leaves := ReadGroup(args, i + 1, probe);
        if leaves.None? {
          return Err(BadDevice);
        }
        LeavesArgs(Devices(args[i + 1..]), probe);
        if |leaves.value| < MinDevices(key.value) {
          return Err(TooFew);
        }
        Suffix(args, i, c - i);
        st := AddGroup(key.value, leaves.value, st);
        i := c;
      }
    }
    r := Finish(st);
    if r.Ok? {
      SpecIsFaithful(args, probe);
    }
  }
}
