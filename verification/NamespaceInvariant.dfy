/**
 The accounting invariant of the namespace, and how each step changes the counts.
 */
module NamespaceInvariant {
  import opened RenameModel
  import opened NamespaceModel

  /** The names of an object, the entries of a directory, and those of them that are directories. */
  function Names(entries: map<Key, Id>, id: Id): set<Key> {
    set k | k in entries && entries[k] == id
  }

  function Listed(entries: map<Key, Id>, d: Id): set<Key> {
    set k | k in entries && k.0 == d
  }

  function Dirs(objs: map<Id, Obj>): set<Id> {
    set id | id in objs && objs[id].isDir
  }

  function Subdirs(entries: map<Key, Id>, dirs: set<Id>, d: Id): set<Key> {
    set k | k in entries && k.0 == d && entries[k] in dirs
  }

  /** What is counted for an object. */
  datatype Tally = Tally(names: set<Key>, listed: int, subdirs: int)

  function TallyOf(s: Fs, id: Id): Tally {
    Tally(Names(s.entries, id), |Listed(s.entries, id)|, |Subdirs(s.entries, Dirs(s.objs), id)|)
  }

  /** A file has as many links as names. A live directory has one name, in its parent, and two links plus one for each
      subdirectory; its size is two plus its entries. An attribute directory is linked by its owner only and has no
      subdirectories. An unlinked directory is empty, unless it is an attribute directory that is not purged yet. */
  ghost predicate Counted(o: Obj, isRoot: bool, tally: Tally) {
    var names, listed, subdirs := tally.names, tally.listed, tally.subdirs;
    && o.unlinked == (o.links == 0)
    && if !o.isDir then o.links == |names|
       else
         && o.size == 2 + listed
         && if isRoot then !o.xattr && names == {} && o.links == 2 + subdirs
            else if o.links == 0 then names == {} && subdirs == 0 && (!o.xattr ==> listed == 0)
            else if o.xattr then names == {} && subdirs == 0 && o.links == 2
            else o.links == 2 + subdirs && |names| == 1 && forall k :: k in names ==> k.0 == o.parent
  }

  ghost predicate ObjOk(s: Fs, id: Id)
    requires id in s.objs
  {
    Counted(s.objs[id], id == s.root, TallyOf(s, id))
  }

  /** An entry joins two objects on the same side of the attribute boundary; there are no directories beyond it. */
  predicate EntryOk(objs: map<Id, Obj>, d: Id, id: Id) {
    && d in objs && objs[d].isDir && id in objs && d != id
    && objs[id].xattr == objs[d].xattr && (objs[id].xattr ==> !objs[id].isDir)
  }

  predicate EntriesOk(objs: map<Id, Obj>, entries: map<Key, Id>) {
    forall k :: k in entries ==> EntryOk(objs, k.0, entries[k])
  }

  /** An object's attribute directory is a linked one that knows whose it is. */
  predicate OwnerOk(objs: map<Id, Obj>, id: Id)
    requires id in objs
  {
    objs[id].xattrDir.Some? ==>
      var x := objs[id].xattrDir.value;
      x in objs && objs[x].isDir && objs[x].xattr && objs[x].links != 0 && objs[x].parent == id && !objs[id].xattr
  }

  /** A linked attribute directory is that of its parent. */
  predicate OwnedOk(objs: map<Id, Obj>, x: Id)
    requires x in objs
  {
    objs[x].isDir && objs[x].xattr && objs[x].links != 0 ==>
      objs[x].parent in objs && objs[objs[x].parent].xattrDir == Some(x)
  }

  /** Linked attribute directories and the objects they belong to correspond one to one. */
  predicate AttributesOk(objs: map<Id, Obj>) {
    && (forall id {:trigger OwnerOk(objs, id)} :: id in objs ==> OwnerOk(objs, id))
    && (forall x {:trigger OwnedOk(objs, x)} :: x in objs ==> OwnedOk(objs, x))
  }

  ghost predicate UnlinkedOk(objs: map<Id, Obj>, unlinked: set<Id>) {
    forall id :: id in unlinked <==> id in objs && objs[id].links == 0
  }

  ghost predicate AllCounted(s: Fs) {
    forall id :: id in s.objs ==> ObjOk(s, id)
  }

  ghost predicate Inv(s: Fs) {
    && s.root in s.objs && s.objs[s.root].isDir && AllCounted(s)
    && EntriesOk(s.objs, s.entries) && AttributesOk(s.objs) && UnlinkedOk(s.objs, s.unlinked)
  }

  // ----- counting -----

  lemma NamesAdd(entries: map<Key, Id>, k: Key, id: Id)
    requires k !in entries
    ensures Names(entries[k := id], id) == Names(entries, id) + {k} && k !in Names(entries, id)
    ensures forall x :: x != id ==> Names(entries[k := id], x) == Names(entries, x)
  {
  }

  lemma NamesDrop(entries: map<Key, Id>, k: Key)
    requires k in entries
    ensures Names(entries - {k}, entries[k]) == Names(entries, entries[k]) - {k} && k in Names(entries, entries[k])
    ensures forall x :: x != entries[k] ==> Names(entries - {k}, x) == Names(entries, x)
  {
  }

  lemma ListedAdd(entries: map<Key, Id>, k: Key, id: Id)
    requires k !in entries
    ensures Listed(entries[k := id], k.0) == Listed(entries, k.0) + {k}
    ensures |Listed(entries[k := id], k.0)| == |Listed(entries, k.0)| + 1
    ensures forall d :: d != k.0 ==> Listed(entries[k := id], d) == Listed(entries, d)
  {
    assert Listed(entries[k := id], k.0) == Listed(entries, k.0) + {k};
  }

  lemma ListedDrop(entries: map<Key, Id>, k: Key)
    requires k in entries
    ensures Listed(entries - {k}, k.0) == Listed(entries, k.0) - {k}
    ensures |Listed(entries - {k}, k.0)| == |Listed(entries, k.0)| - 1
    ensures forall d :: d != k.0 ==> Listed(entries - {k}, d) == Listed(entries, d)
  {
    assert Listed(entries - {k}, k.0) == Listed(entries, k.0) - {k};
    assert k in Listed(entries, k.0);
  }

  lemma SubdirsAdd(entries: map<Key, Id>, dirs: set<Id>, k: Key, id: Id)
    requires k !in entries
    ensures |Subdirs(entries[k := id], dirs, k.0)| == |Subdirs(entries, dirs, k.0)| + Bit(id in dirs)
    ensures forall d :: d != k.0 ==> Subdirs(entries[k := id], dirs, d) == Subdirs(entries, dirs, d)
  {
    if id in dirs {
      assert Subdirs(entries[k := id], dirs, k.0) == Subdirs(entries, dirs, k.0) + {k};
    } else {
      assert Subdirs(entries[k := id], dirs, k.0) == Subdirs(entries, dirs, k.0);
    }
  }

  lemma SubdirsDrop(entries: map<Key, Id>, dirs: set<Id>, k: Key)
    requires k in entries
    ensures |Subdirs(entries - {k}, dirs, k.0)| == |Subdirs(entries, dirs, k.0)| - Bit(entries[k] in dirs)
    ensures forall d :: d != k.0 ==> Subdirs(entries - {k}, dirs, d) == Subdirs(entries, dirs, d)
  {
    assert Subdirs(entries - {k}, dirs, k.0) == Subdirs(entries, dirs, k.0) - if entries[k] in dirs then {k} else {};
    if entries[k] in dirs {
      assert k in Subdirs(entries, dirs, k.0);
    }
  }

  /** Objects that no entry names do not count as subdirectories, whatever they are. */
  lemma SubdirsNew(entries: map<Key, Id>, dirs: set<Id>, dirs': set<Id>, id: Id, d: Id)
    requires forall x :: x != id ==> (x in dirs <==> x in dirs')
    requires forall k :: k in entries ==> entries[k] != id
    ensures Subdirs(entries, dirs', d) == Subdirs(entries, dirs, d)
  {
  }

  /** The objects of two states are of the same kinds, but for one that no entry names. */
  ghost predicate SameDirs(objs: map<Id, Obj>, objs': map<Id, Obj>, entries: map<Key, Id>, id: Id) {
    && (forall x :: x != id ==> (x in Dirs(objs) <==> x in Dirs(objs')))
    && (Dirs(objs) == Dirs(objs') || forall k :: k in entries ==> entries[k] != id)
  }

  lemma TallyAdd(s: Fs, s': Fs, k: Key, id: Id, x: Id)
    requires k !in s.entries && s'.entries == s.entries[k := id] && SameDirs(s.objs, s'.objs, s.entries, id)
    ensures TallyOf(s', x).names == TallyOf(s, x).names + (if x == id then {k} else {})
    ensures k !in TallyOf(s, x).names
    ensures TallyOf(s', x).listed == TallyOf(s, x).listed + Bit(x == k.0)
    ensures TallyOf(s', x).subdirs == TallyOf(s, x).subdirs + Bit(x == k.0 && id in Dirs(s'.objs))
  {
    NamesAdd(s.entries, k, id);
    ListedAdd(s.entries, k, id);
    if Dirs(s.objs) != Dirs(s'.objs) {
      SubdirsNew(s.entries, Dirs(s.objs), Dirs(s'.objs), id, x);
    }
    SubdirsAdd(s.entries, Dirs(s'.objs), k, id);
  }

  lemma TallyDrop(s: Fs, s': Fs, k: Key, x: Id)
    requires k in s.entries && s'.entries == s.entries - {k} && Dirs(s'.objs) == Dirs(s.objs)
    ensures TallyOf(s', x).names == TallyOf(s, x).names - (if x == s.entries[k] then {k} else {})
    ensures k in TallyOf(s, x).names <==> x == s.entries[k]
    ensures TallyOf(s', x).listed == TallyOf(s, x).listed - Bit(x == k.0)
    ensures TallyOf(s', x).subdirs == TallyOf(s, x).subdirs - Bit(x == k.0 && s.entries[k] in Dirs(s.objs))
  {
    NamesDrop(s.entries, k);
    ListedDrop(s.entries, k);
    SubdirsDrop(s.entries, Dirs(s.objs), k);
  }

  lemma TallyNone(s: Fs, id: Id)
    requires EntriesOk(s.objs, s.entries) && id !in s.objs
    ensures TallyOf(s, id) == Tally({}, 0, 0) && forall k :: k in s.entries ==> s.entries[k] != id
  {
    forall k | k in s.entries ensures s.entries[k] != id && k.0 != id {
      assert EntryOk(s.objs, k.0, s.entries[k]);
    }
    assert Names(s.entries, id) == {} && Listed(s.entries, id) == {} && Subdirs(s.entries, Dirs(s.objs), id) == {};
  }

  // ----- what happens to the directory of an entry -----

  function Grown(dir: Obj, isDir: bool): Obj {
    dir.(size := dir.size + 1, links := dir.links + Bit(isDir))
  }

  function Shrunk(dir: Obj, isDir: bool): Obj {
    dir.(size := dir.size - 1, links := dir.links - Bit(isDir))
  }

  lemma CountedGrown(o: Obj, isRoot: bool, t: Tally, t': Tally, isDir: bool)
    requires Counted(o, isRoot, t) && o.isDir && !o.unlinked && (o.xattr ==> !isDir) && t.subdirs >= 0
    requires t' == Tally(t.names, t.listed + 1, t.subdirs + Bit(isDir))
    ensures Counted(Grown(o, isDir), isRoot, t')
  {
  }

  /** A directory that loses an entry is not a plain unlinked one: those are empty. */
  lemma CountedShrunk(o: Obj, isRoot: bool, t: Tally, t': Tally, isDir: bool)
    requires Counted(o, isRoot, t) && o.isDir && t.listed >= 1 && t.subdirs >= Bit(isDir)
    requires t' == Tally(t.names, t.listed - 1, t.subdirs - Bit(isDir))
    ensures Counted(Shrunk(o, isDir), isRoot, t')
  {
  }

  // ----- creating -----

  /** The state after a new object has got its first name. */
  function Created(s: Fs, d: Id, name: string, id: Id, isDir: bool): Fs
    requires d in s.objs
  {
    var o := NewObj(s, d, isDir);
    s.(objs := s.objs[id := o.(links := o.links + 1)][d := Grown(s.objs[d], isDir)], entries := s.entries[(d, name) := id])
  }

  lemma CreatedDirs(s: Fs, d: Id, name: string, id: Id, isDir: bool)
    requires d in s.objs && id !in s.objs
    ensures forall x :: x != id ==> (x in Dirs(s.objs) <==> x in Dirs(Created(s, d, name, id, isDir).objs))
    ensures id in Dirs(Created(s, d, name, id, isDir).objs) <==> isDir
  {
  }

  lemma CreateTally(s: Fs, d: Id, name: string, id: Id, isDir: bool, x: Id)
    requires d in s.objs && id !in s.objs && (d, name) !in s.entries && EntriesOk(s.objs, s.entries)
    ensures var t, t' := TallyOf(s, x), TallyOf(Created(s, d, name, id, isDir), x);
            if x == id then d != id && t' == Tally({(d, name)}, 0, 0)
            else t' == Tally(t.names, t.listed + Bit(x == d), t.subdirs + Bit(x == d && isDir))
  {
    TallyNone(s, id);
    CreatedDirs(s, d, name, id, isDir);
    TallyAdd(s, Created(s, d, name, id, isDir), (d, name), id, x);
  }

  lemma CreateCount(s: Fs, s': Fs, d: Id, name: string, id: Id, isDir: bool, x: Id)
    requires d in s.objs && s.objs[d].isDir && !s.objs[d].unlinked && (isDir ==> !s.objs[d].xattr)
    requires id !in s.objs && id != s.root && (d, name) !in s.entries && EntriesOk(s.objs, s.entries)
    requires s' == Created(s, d, name, id, isDir) && x in s'.objs && (x != id ==> ObjOk(s, x))
    ensures ObjOk(s', x)
  {
    CreateTally(s, d, name, id, isDir, x);
    if x == d {
      CountedGrown(s.objs[d], d == s.root, TallyOf(s, d), TallyOf(s', d), isDir);
    }
  }
}
