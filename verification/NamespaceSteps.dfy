/**
 Every transaction keeps the accounting invariant.
 */
module NamespaceSteps {
  import opened RenameModel
  import opened NamespaceModel
  import opened NamespaceInvariant

  // ----- what only depends on the kinds of objects -----

  predicate SameKind(o: Obj, o': Obj) {
    && o.isDir == o'.isDir && o.xattr == o'.xattr && o.xattrDir == o'.xattrDir
    && (o.isDir && o.xattr ==> (o.links == 0 <==> o'.links == 0) && o.parent == o'.parent)
  }

  /** Old objects keep their kind; new ones are no attribute directories. */
  predicate SameKinds(objs: map<Id, Obj>, objs': map<Id, Obj>) {
    && (forall x :: x in objs ==> x in objs' && SameKind(objs[x], objs'[x]))
    && (forall x :: x in objs' && x !in objs ==> objs'[x].xattrDir == None && !(objs'[x].isDir && objs'[x].xattr))
  }

  lemma EntriesSame(objs: map<Id, Obj>, objs': map<Id, Obj>, entries: map<Key, Id>)
    requires SameKinds(objs, objs') && EntriesOk(objs, entries)
    ensures EntriesOk(objs', entries)
  {
    forall k | k in entries ensures EntryOk(objs', k.0, entries[k]) {
      assert EntryOk(objs, k.0, entries[k]);
      assert SameKind(objs[k.0], objs'[k.0]) && SameKind(objs[entries[k]], objs'[entries[k]]);
    }
  }

  lemma AttributesSame(objs: map<Id, Obj>, objs': map<Id, Obj>)
    requires SameKinds(objs, objs') && AttributesOk(objs)
    ensures AttributesOk(objs')
  {
    forall id | id in objs' ensures OwnerOk(objs', id) {
      if id in objs {
        assert OwnerOk(objs, id);
      }
    }
    forall x | x in objs' ensures OwnedOk(objs', x) {
      if x in objs {
        assert OwnedOk(objs, x);
      }
    }
  }

  lemma EntriesAdd(objs: map<Id, Obj>, objs': map<Id, Obj>, entries: map<Key, Id>, k: Key, id: Id)
    requires SameKinds(objs, objs') && EntriesOk(objs, entries) && EntryOk(objs', k.0, id)
    ensures EntriesOk(objs', entries[k := id])
  {
    EntriesSame(objs, objs', entries);
  }

  lemma Reassemble(s: Fs, s': Fs)
    requires Inv(s) && s'.root == s.root && SameKinds(s.objs, s'.objs) && AllCounted(s')
    requires EntriesOk(s'.objs, s'.entries) && UnlinkedOk(s'.objs, s'.unlinked)
    ensures Inv(s')
  {
    AttributesSame(s.objs, s'.objs);
    assert SameKind(s.objs[s.root], s'.objs[s.root]);
  }

  // ----- new objects -----

  predicate CanCreate(s: Fs, d: Id, name: string, id: Id, isDir: bool) {
    && IsDirectory(s, d) && !s.objs[d].unlinked && (isDir ==> !s.objs[d].xattr)
    && id !in s.objs && id != s.root && (d, name) !in s.entries
  }

  lemma CreatedCounts(s: Fs, d: Id, name: string, id: Id, isDir: bool)
    requires CanCreate(s, d, name, id, isDir) && AllCounted(s) && EntriesOk(s.objs, s.entries)
    ensures AllCounted(Created(s, d, name, id, isDir))
  {
    var s' := Created(s, d, name, id, isDir);
    forall x | x in s'.objs ensures ObjOk(s', x) {
      assert x != id ==> ObjOk(s, x);
      CreateCount(s, s', d, name, id, isDir, x);
    }
  }

  lemma CreatedKinds(s: Fs, d: Id, name: string, id: Id, isDir: bool)
    requires CanCreate(s, d, name, id, isDir) && ObjOk(s, d)
    ensures SameKinds(s.objs, Created(s, d, name, id, isDir).objs)
  {
  }

  lemma CreatedUnlinked(s: Fs, d: Id, name: string, id: Id, isDir: bool)
    requires CanCreate(s, d, name, id, isDir) && ObjOk(s, d) && UnlinkedOk(s.objs, s.unlinked)
    ensures UnlinkedOk(Created(s, d, name, id, isDir).objs, s.unlinked)
  {
  }

  lemma CreatedInv(s: Fs, d: Id, name: string, id: Id, isDir: bool)
    requires Inv(s) && CanCreate(s, d, name, id, isDir)
    ensures Inv(Created(s, d, name, id, isDir))
  {
    var s' := Created(s, d, name, id, isDir);
    assert ObjOk(s, d);
    CreatedCounts(s, d, name, id, isDir);
    CreatedKinds(s, d, name, id, isDir);
    EntriesAdd(s.objs, s'.objs, s.entries, (d, name), id);
    CreatedUnlinked(s, d, name, id, isDir);
    Reassemble(s, s');
  }

  lemma CreateIs(s: Fs, d: Id, name: string, id: Id, isDir: bool)
    requires s.root in s.objs && IsDirectory(s, d) && id !in s.objs && DoCreate(s, d, name, id, isDir).Ok?
    ensures CanCreate(s, d, name, id, isDir) && DoCreate(s, d, name, id, isDir).value == Created(s, d, name, id, isDir)
  {
  }

  // ----- another name for a file -----

  function LinkedIn(s: Fs, d: Id, name: string, id: Id): Fs
    requires d in s.objs && id in s.objs
  {
    var o := s.objs[id];
    s.(objs := s.objs[id := o.(links := o.links + 1, parent := d)][d := Grown(s.objs[d], false)],
       entries := s.entries[(d, name) := id])
  }

  predicate CanLink(s: Fs, d: Id, name: string, id: Id) {
    && IsDirectory(s, d) && !s.objs[d].unlinked && id in s.objs && !s.objs[id].isDir && !s.objs[id].unlinked
    && s.objs[id].xattr == s.objs[d].xattr && (d, name) !in s.entries
  }

  lemma LinkedTally(s: Fs, d: Id, name: string, id: Id, x: Id)
    requires CanLink(s, d, name, id)
    ensures var t, t' := TallyOf(s, x), TallyOf(LinkedIn(s, d, name, id), x);
            && t'.names == t.names + (if x == id then {(d, name)} else {}) && (d, name) !in t.names
            && t'.listed == t.listed + Bit(x == d) && t'.subdirs == t.subdirs
  {
    var s' := LinkedIn(s, d, name, id);
    assert Dirs(s'.objs) == Dirs(s.objs);
    TallyAdd(s, s', (d, name), id, x);
  }

  lemma LinkedCount(s: Fs, d: Id, name: string, id: Id, x: Id)
    requires CanLink(s, d, name, id) && x in s.objs && ObjOk(s, x)
    ensures ObjOk(LinkedIn(s, d, name, id), x)
  {
    LinkedTally(s, d, name, id, x);
    if x == d {
      CountedGrown(s.objs[d], d == s.root, TallyOf(s, d), TallyOf(LinkedIn(s, d, name, id), d), false);
    }
  }

  lemma LinkedCounts(s: Fs, d: Id, name: string, id: Id)
    requires CanLink(s, d, name, id) && AllCounted(s)
    ensures AllCounted(LinkedIn(s, d, name, id))
  {
    var s' := LinkedIn(s, d, name, id);
    forall x | x in s'.objs ensures ObjOk(s', x) {
      assert ObjOk(s, x);
      LinkedCount(s, d, name, id, x);
    }
  }

  lemma LinkedKinds(s: Fs, d: Id, name: string, id: Id)
    requires CanLink(s, d, name, id)
    ensures SameKinds(s.objs, LinkedIn(s, d, name, id).objs)
  {
  }

  lemma LinkedUnlinked(s: Fs, d: Id, name: string, id: Id)
    requires CanLink(s, d, name, id) && ObjOk(s, d) && ObjOk(s, id) && UnlinkedOk(s.objs, s.unlinked)
    ensures UnlinkedOk(LinkedIn(s, d, name, id).objs, s.unlinked)
  {
  }

  lemma LinkedInv(s: Fs, d: Id, name: string, id: Id)
    requires Inv(s) && CanLink(s, d, name, id)
    ensures Inv(LinkedIn(s, d, name, id))
  {
    var s' := LinkedIn(s, d, name, id);
    assert ObjOk(s, d) && ObjOk(s, id);
    LinkedCounts(s, d, name, id);
    LinkedKinds(s, d, name, id);
    EntriesAdd(s.objs, s'.objs, s.entries, (d, name), id);
    LinkedUnlinked(s, d, name, id);
    Reassemble(s, s');
  }

  lemma LinkIs(s: Fs, src: Id, d: Id, name: string)
    requires src in s.objs && IsDirectory(s, d) && DoLink(s, src, d, name).Ok?
    ensures CanLink(s, d, name, src) && DoLink(s, src, d, name).value == LinkedIn(s, d, name, src)
  {
  }

  lemma LinkInv(s: Fs, src: Id, d: Id, name: string)
    requires Inv(s) && src in s.objs && IsDirectory(s, d) && DoLink(s, src, d, name).Ok?
    ensures Inv(DoLink(s, src, d, name).value)
  {
    LinkIs(s, src, d, name);
    LinkedInv(s, d, name, src);
  }

  // ----- a name goes away -----

  /** zfs_link_destroy on a name, with the object queued for deletion when this was its last. */
  function Dropped(s: Fs, d: Id, name: string, id: Id): Fs
    requires d in s.objs && id in s.objs
  {
    var o := s.objs[id];
    Fs(s.root, s.objs[id := Unlink(o)][d := Shrunk(s.objs[d], o.isDir)], s.entries - {(d, name)},
       if Unlink(o).unlinked then s.unlinked + {id} else s.unlinked)
  }

  predicate CanDrop(s: Fs, d: Id, name: string, id: Id) {
    && (d, name) in s.entries && s.entries[(d, name)] == id && EntryOk(s.objs, d, id)
    && (s.objs[id].isDir ==> s.objs[id].size == 2)
  }

  lemma Bounds(s: Fs, x: Id)
    ensures 0 <= TallyOf(s, x).subdirs <= TallyOf(s, x).listed
  {
    Subset(Subdirs(s.entries, Dirs(s.objs), x), Listed(s.entries, x));
  }

  lemma {:induction false} Subset(a: set<Key>, b: set<Key>)
    requires a <= b
    ensures |a| <= |b|
    decreases b
  {
    if k :| k in a {
      Subset(a - {k}, b - {k});
    }
  }

  lemma Occupied(s: Fs, k: Key)
    requires k in s.entries
    ensures TallyOf(s, k.0).listed >= 1 && TallyOf(s, k.0).subdirs >= Bit(s.entries[k] in Dirs(s.objs))
  {
    assert k in Listed(s.entries, k.0);
    assert s.entries[k] in Dirs(s.objs) ==> k in Subdirs(s.entries, Dirs(s.objs), k.0);
  }

  lemma LastOne(names: set<Key>, k: Key)
    requires k in names
    ensures |names - {k}| == |names| - 1 && (|names| == 1 ==> names == {k})
  {
    assert names == names - {k} + {k};
    if |names| == 1 {
      assert |names - {k}| == 0;
    }
  }

  /** The object that lost the name. The link count is never too small, and a directory is always unlinked. */
  lemma CountedUnlink(o: Obj, isRoot: bool, t: Tally, t': Tally, k: Key)
    requires Counted(o, isRoot, t) && k in t.names && t' == t.(names := t.names - {k})
    requires o.isDir ==> o.size == 2 && 0 <= t.subdirs <= t.listed
    ensures Counted(Unlink(o), isRoot, t')
    ensures o.links > Bit(o.isDir) && (Unlink(o).links == 0 <==> Unlink(o).unlinked) && (o.isDir ==> Unlink(o).unlinked)
  {
    LastOne(t.names, k);
  }

  lemma DroppedTally(s: Fs, d: Id, name: string, id: Id, x: Id)
    requires CanDrop(s, d, name, id)
    ensures var t, t' := TallyOf(s, x), TallyOf(Dropped(s, d, name, id), x);
            && t'.names == t.names - (if x == id then {(d, name)} else {}) && ((d, name) in t.names <==> x == id)
            && t'.listed == t.listed - Bit(x == d) && t'.subdirs == t.subdirs - Bit(x == d && s.objs[id].isDir)
  {
    var s' := Dropped(s, d, name, id);
    assert Dirs(s'.objs) == Dirs(s.objs);
    TallyDrop(s, s', (d, name), x);
  }

  lemma DroppedCount(s: Fs, d: Id, name: string, id: Id, x: Id)
    requires CanDrop(s, d, name, id) && x in s.objs && ObjOk(s, x)
    ensures ObjOk(Dropped(s, d, name, id), x)
  {
    var s', k := Dropped(s, d, name, id), (d, name);
    DroppedTally(s, d, name, id, x);
    if x == d {
      Occupied(s, k);
      CountedShrunk(s.objs[d], d == s.root, TallyOf(s, d), TallyOf(s', d), s.objs[id].isDir);
    } else if x == id {
      Bounds(s, id);
      CountedUnlink(s.objs[id], id == s.root, TallyOf(s, id), TallyOf(s', id), k);
    }
  }

  lemma DroppedCounts(s: Fs, d: Id, name: string, id: Id)
    requires CanDrop(s, d, name, id) && AllCounted(s)
    ensures AllCounted(Dropped(s, d, name, id))
  {
    var s' := Dropped(s, d, name, id);
    forall x | x in s'.objs ensures ObjOk(s', x) {
      assert ObjOk(s, x);
      DroppedCount(s, d, name, id, x);
    }
  }

  /** The directory of an entry stays linked, or stays unlinked if it is an attribute directory that is purged. */
  lemma DirectoryStays(s: Fs, k: Key, isDir: bool)
    requires k in s.entries && EntryOk(s.objs, k.0, s.entries[k]) && ObjOk(s, k.0) && isDir == s.objs[s.entries[k]].isDir
    ensures Shrunk(s.objs[k.0], isDir).links == 0 <==> s.objs[k.0].links == 0
  {
    Occupied(s, k);
  }

  lemma DroppedKinds(s: Fs, d: Id, name: string, id: Id)
    requires CanDrop(s, d, name, id) && ObjOk(s, d)
    ensures SameKinds(s.objs, Dropped(s, d, name, id).objs)
  {
    DirectoryStays(s, (d, name), s.objs[id].isDir);
  }

  lemma DroppedUnlinked(s: Fs, d: Id, name: string, id: Id)
    requires CanDrop(s, d, name, id) && ObjOk(s, d) && ObjOk(s, id) && UnlinkedOk(s.objs, s.unlinked)
    ensures UnlinkedOk(Dropped(s, d, name, id).objs, Dropped(s, d, name, id).unlinked)
  {
    DirectoryStays(s, (d, name), s.objs[id].isDir);
    Bounds(s, id);
    assert (d, name) in TallyOf(s, id).names;
    CountedUnlink(s.objs[id], id == s.root, TallyOf(s, id),
                  TallyOf(s, id).(names := TallyOf(s, id).names - {(d, name)}), (d, name));
  }

  lemma DroppedInv(s: Fs, d: Id, name: string, id: Id)
    requires Inv(s) && CanDrop(s, d, name, id)
    ensures Inv(Dropped(s, d, name, id))
  {
    var s' := Dropped(s, d, name, id);
    assert ObjOk(s, d) && ObjOk(s, id);
    DroppedCounts(s, d, name, id);
    DroppedKinds(s, d, name, id);
    EntriesSame(s.objs, s'.objs, s.entries);
    DroppedUnlinked(s, d, name, id);
    Reassemble(s, s');
  }

  /** zfs_link_destroy fails exactly on directories that are not empty. */
  lemma LinkDestroyIs(s: Fs, d: Id, name: string, id: Id)
    requires EntryOk(s.objs, d, id) && ObjOk(s, id)
    ensures LinkDestroy(s, d, name, id, true) ==
            if s.objs[id].isDir && Listed(s.entries, id) != {} then Err(EEXIST) else Ok(Dropped(s, d, name, id))
    ensures LinkDestroy(s, d, name, id, true).Ok? && s.objs[id].isDir ==> s.objs[id].size == 2
  {
    assert s.objs[id].isDir ==> (s.objs[id].size == 2 <==> Listed(s.entries, id) == {});
  }

  lemma LinkDestroyInv(s: Fs, d: Id, name: string, id: Id)
    requires Inv(s) && (d, name) in s.entries && s.entries[(d, name)] == id
    ensures EntryOk(s.objs, d, id)
    ensures LinkDestroy(s, d, name, id, true).Ok? ==>
              LinkDestroy(s, d, name, id, true).value == Dropped(s, d, name, id) && Inv(Dropped(s, d, name, id))
  {
    assert EntryOk(s.objs, d, s.entries[(d, name)]);
    assert ObjOk(s, id);
    LinkDestroyIs(s, d, name, id);
    if LinkDestroy(s, d, name, id, true).Ok? {
      DroppedInv(s, d, name, id);
    }
  }

  // ----- an object goes away -----

  /** The state without an object that has no links, its attribute directory queued for deletion. */
  predicate CanDelete(s: Fs, id: Id) {
    id in s.objs && s.objs[id].links == 0 && forall k :: k in s.entries ==> k.0 != id && s.entries[k] != id
  }

  lemma DeletedTally(s: Fs, id: Id, x: Id)
    requires CanDelete(s, id)
    ensures TallyOf(DoRmnode(s, id), x) == TallyOf(s, x)
  {
    SubdirsNew(s.entries, Dirs(s.objs), Dirs(DoRmnode(s, id).objs), id, x);
  }

  lemma DeletedCount(s: Fs, id: Id, x: Id)
    requires CanDelete(s, id) && OwnerOk(s.objs, id) && x in s.objs && x != id && ObjOk(s, x)
    ensures ObjOk(DoRmnode(s, id), x)
  {
    DeletedTally(s, id, x);
  }

  lemma DeletedAttributes(s: Fs, id: Id)
    requires AttributesOk(s.objs) && CanDelete(s, id)
    ensures AttributesOk(DoRmnode(s, id).objs)
  {
    var objs, objs' := s.objs, DoRmnode(s, id).objs;
    assert OwnerOk(objs, id);
    forall o | o in objs' ensures OwnerOk(objs', o) {
      assert OwnerOk(objs, o);
    }
    forall x | x in objs' ensures OwnedOk(objs', x) {
      assert OwnedOk(objs, x);
    }
  }

  lemma DeletedRest(s: Fs, id: Id)
    requires CanDelete(s, id) && OwnerOk(s.objs, id) && EntriesOk(s.objs, s.entries) && UnlinkedOk(s.objs, s.unlinked)
    ensures var s' := DoRmnode(s, id); EntriesOk(s'.objs, s'.entries) && UnlinkedOk(s'.objs, s'.unlinked)
  {
    var s' := DoRmnode(s, id);
    forall k | k in s'.entries ensures EntryOk(s'.objs, k.0, s'.entries[k]) {
      assert EntryOk(s.objs, k.0, s.entries[k]);
    }
  }

  lemma DeletedInv(s: Fs, id: Id)
    requires Inv(s) && CanDelete(s, id)
    ensures Inv(DoRmnode(s, id))
  {
    var s' := DoRmnode(s, id);
    assert ObjOk(s, s.root);
    assert OwnerOk(s.objs, id);
    forall x | x in s'.objs ensures ObjOk(s', x) {
      assert ObjOk(s, x);
      DeletedCount(s, id, x);
    }
    DeletedAttributes(s, id);
    DeletedRest(s, id);
  }

  lemma NoNames(s: Fs, id: Id)
    requires Inv(s) && id in s.objs && s.objs[id].links == 0
    ensures Names(s.entries, id) == {}
  {
    assert ObjOk(s, id);
  }

  /** An object in the unlinked set is in no directory and has no entries, once its attributes are purged. */
  lemma CanRmnode(s: Fs, id: Id)
    requires Inv(s) && id in s.objs && s.objs[id].links == 0
    requires s.objs[id].isDir && s.objs[id].xattr ==> forall k :: k in s.entries ==> k.0 != id
    ensures CanDelete(s, id)
  {
    assert ObjOk(s, id);
    NoNames(s, id);
    forall k | k in s.entries ensures k.0 != id && s.entries[k] != id {
      assert EntryOk(s.objs, k.0, s.entries[k]);
      assert k in Names(s.entries, s.entries[k]) && k in Listed(s.entries, k.0);
    }
  }

  lemma DeleteUnqueued(s: Fs, id: Id)
    requires id in s.objs
    ensures DoRmnode(s.(unlinked := s.unlinked + {id}), id) == DoRmnode(s, id)
  {
    var s' := s.(unlinked := s.unlinked + {id});
    assert DoRmnode(s', id).unlinked == DoRmnode(s, id).unlinked;
  }

  /** Deleting a file at once is the same as queueing it and deleting it from the queue. */
  lemma RemoveNowIs(s: Fs, d: Id, name: string, id: Id)
    requires (d, name) in s.entries && s.entries[(d, name)] == id && EntryOk(s.objs, d, id) && !s.objs[id].isDir
    requires !s.objs[d].unlinked && name != "." && name != ".."
    ensures DoRemove(s, d, name, true) ==
            Ok(if Unlink(s.objs[id]).unlinked then DoRmnode(Dropped(s, d, name, id), id) else Dropped(s, d, name, id))
    ensures DoRemove(s, d, name, false) == Ok(Dropped(s, d, name, id))
  {
    var s' := LinkDestroy(s, d, name, id, false).value;
    DeleteUnqueued(s', id);
  }

  // ----- attribute directories -----

  lemma XattrCount(s: Fs, owner: Id, id: Id, x: Id)
    requires owner in s.objs && id !in s.objs && id != s.root && EntriesOk(s.objs, s.entries)
    requires x == id || (x in s.objs && ObjOk(s, x))
    ensures ObjOk(DoMakeXattrDir(s, owner, id), x)
  {
    var s' := DoMakeXattrDir(s, owner, id);
    TallyNone(s, id);
    SubdirsNew(s.entries, Dirs(s.objs), Dirs(s'.objs), id, x);
    assert TallyOf(s', x) == TallyOf(s, x);
  }

  lemma XattrAttributes(s: Fs, owner: Id, id: Id)
    requires owner in s.objs && id !in s.objs && AttributesOk(s.objs)
    requires !s.objs[owner].xattr && s.objs[owner].xattrDir.None?
    ensures AttributesOk(DoMakeXattrDir(s, owner, id).objs)
  {
    var objs' := DoMakeXattrDir(s, owner, id).objs;
    forall o | o in objs' ensures OwnerOk(objs', o) {
      assert o != id ==> OwnerOk(s.objs, o);
    }
    forall x | x in objs' ensures OwnedOk(objs', x) {
      assert x != id ==> OwnedOk(s.objs, x);
    }
  }

  lemma XattrRest(s: Fs, owner: Id, id: Id)
    requires owner in s.objs && id !in s.objs && EntriesOk(s.objs, s.entries) && UnlinkedOk(s.objs, s.unlinked)
    ensures var s' := DoMakeXattrDir(s, owner, id); EntriesOk(s'.objs, s'.entries) && UnlinkedOk(s'.objs, s'.unlinked)
  {
    var s' := DoMakeXattrDir(s, owner, id);
    forall k | k in s'.entries ensures EntryOk(s'.objs, k.0, s'.entries[k]) {
      assert EntryOk(s.objs, k.0, s.entries[k]);
    }
  }

  lemma XattrCounts(s: Fs, owner: Id, id: Id)
    requires owner in s.objs && id !in s.objs && id != s.root && EntriesOk(s.objs, s.entries) && AllCounted(s)
    ensures AllCounted(DoMakeXattrDir(s, owner, id))
  {
    var s' := DoMakeXattrDir(s, owner, id);
    forall x | x in s'.objs ensures ObjOk(s', x) {
      assert x != id ==> ObjOk(s, x);
      XattrCount(s, owner, id, x);
    }
  }

  lemma MakeXattrInv(s: Fs, owner: Id, id: Id)
    requires Inv(s) && Allowed(s, MakeXattrDir(owner, id))
    ensures Inv(DoMakeXattrDir(s, owner, id))
  {
    XattrCounts(s, owner, id);
    XattrAttributes(s, owner, id);
    XattrRest(s, owner, id);
  }

  // ----- renaming -----

  /** The state after an object has moved from one name to another. */
  function Moved(s: Fs, sd: Id, sname: string, td: Id, tname: string, id: Id): Fs
    requires sd in s.objs && td in s.objs && id in s.objs
  {
    var isDir := s.objs[id].isDir;
    var objs := s.objs[id := s.objs[id].(parent := td)];
    var objs' := objs[td := Grown(objs[td], isDir)];
    s.(objs := objs'[sd := Shrunk(objs'[sd], isDir)], entries := s.entries[(td, tname) := id] - {(sd, sname)})
  }

  predicate CanMove(s: Fs, sd: Id, sname: string, td: Id, tname: string, id: Id) {
    && (sd, sname) in s.entries && s.entries[(sd, sname)] == id && EntryOk(s.objs, sd, id)
    && (td, tname) !in s.entries && EntryOk(s.objs, td, id) && !s.objs[td].unlinked
  }

  lemma MovedTally(s: Fs, sd: Id, sname: string, td: Id, tname: string, id: Id, x: Id)
    requires CanMove(s, sd, sname, td, tname, id)
    ensures var t, t' := TallyOf(s, x), TallyOf(Moved(s, sd, sname, td, tname, id), x);
            var isDir := s.objs[id].isDir;
            && t'.names == (if x == id then t.names + {(td, tname)} - {(sd, sname)} else t.names)
            && ((sd, sname) in t.names <==> x == id) && (td, tname) !in t.names
            && t'.listed == t.listed + Bit(x == td) - Bit(x == sd)
            && t'.subdirs == t.subdirs + Bit(x == td && isDir) - Bit(x == sd && isDir)
  {
    var s' := Moved(s, sd, sname, td, tname, id);
    var mid := s.(entries := s.entries[(td, tname) := id]);
    assert Dirs(s'.objs) == Dirs(s.objs);
    TallyAdd(s, mid, (td, tname), id, x);
    TallyDrop(mid, s', (sd, sname), x);
  }

  /** Cardinalities under exchanging one name for another. */
  lemma Exchange(names: set<Key>, old': Key, new': Key)
    requires old' in names && new' !in names
    ensures |names + {new'} - {old'}| == |names|
    ensures |names| == 1 ==> names + {new'} - {old'} == {new'}
  {
    LastOne(names, old');
    assert names + {new'} - {old'} == (names - {old'}) + {new'};
  }

  lemma MovedSelf(s: Fs, sd: Id, sname: string, td: Id, tname: string, id: Id)
    requires CanMove(s, sd, sname, td, tname, id) && ObjOk(s, id)
    ensures ObjOk(Moved(s, sd, sname, td, tname, id), id)
  {
    MovedTally(s, sd, sname, td, tname, id, id);
    Exchange(TallyOf(s, id).names, (sd, sname), (td, tname));
  }

  /** The directories at both ends, which may be the same. */
  lemma MovedEnd(s: Fs, sd: Id, sname: string, td: Id, tname: string, id: Id, x: Id)
    requires CanMove(s, sd, sname, td, tname, id) && (x == sd || x == td) && ObjOk(s, x)
    ensures ObjOk(Moved(s, sd, sname, td, tname, id), x)
  {
    var t, t', isDir := TallyOf(s, x), TallyOf(Moved(s, sd, sname, td, tname, id), x), s.objs[id].isDir;
    MovedTally(s, sd, sname, td, tname, id, x);
    Occupied(s, (sd, sname));
    Bounds(s, x);
    var t1 := Tally(t.names, t.listed + Bit(x == td), t.subdirs + Bit(x == td && isDir));
    if x == td {
      CountedGrown(s.objs[td], td == s.root, t, t1, isDir);
    }
    if x == sd {
      CountedShrunk(if sd == td then Grown(s.objs[sd], isDir) else s.objs[sd], sd == s.root, t1, t', isDir);
    }
  }

  lemma MovedCount(s: Fs, sd: Id, sname: string, td: Id, tname: string, id: Id, x: Id)
    requires CanMove(s, sd, sname, td, tname, id) && x in s.objs && ObjOk(s, x)
    ensures ObjOk(Moved(s, sd, sname, td, tname, id), x)
  {
    if x == id {
      MovedSelf(s, sd, sname, td, tname, id);
    } else if x == td || x == sd {
      MovedEnd(s, sd, sname, td, tname, id, x);
    } else {
      MovedTally(s, sd, sname, td, tname, id, x);
    }
  }
}
