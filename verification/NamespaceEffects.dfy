/**
 What each namespace operation does to the names, and when it succeeds, in terms of the entries before and after. The
 link counts, sizes and the unlinked set then follow from the accounting invariant.
 */
module NamespaceEffects {
  import opened RenameModel
  import opened NamespaceModel
  import opened NamespaceInvariant
  import opened NamespaceSteps

  predicate GoodName(name: string) {
    name != "." && name != ".."
  }

  /** The name can be looked up in the directory. */
  predicate CanLookUp(s: Fs, d: Id, name: string)
    requires d in s.objs
  {
    GoodName(name) && !s.objs[d].unlinked
  }

  predicate Empty(s: Fs, d: Id) {
    forall k :: k in s.entries ==> k.0 != d
  }

  predicate OnlyName(s: Fs, d: Id, name: string, id: Id) {
    forall k :: k in s.entries && s.entries[k] == id ==> k == (d, name)
  }

  /** The objects are the same ones, and what never changes about them has not changed. */
  predicate SameObjects(objs: map<Id, Obj>, objs': map<Id, Obj>) {
    && objs'.Keys == objs.Keys
    && forall x :: x in objs ==> objs'[x].isDir == objs[x].isDir && objs'[x].xattr == objs[x].xattr
                                 && objs'[x].xattrDir == objs[x].xattrDir
  }

  /** The object that a name stands for is there and accounted for. */
  ghost predicate Bound(s: Fs, d: Id, name: string) {
    (d, name) in s.entries ==>
      var id := s.entries[(d, name)]; id in s.objs && EntryOk(s.objs, d, id) && ObjOk(s, id)
  }

  lemma AlwaysBound(s: Fs, d: Id, name: string)
    requires Inv(s)
    ensures Bound(s, d, name)
  {
    if (d, name) in s.entries {
      assert EntryOk(s.objs, (d, name).0, s.entries[(d, name)]);
    }
  }

  // ----- create and mkdir -----

  predicate CanMake(s: Fs, d: Id, name: string, isDir: bool)
    requires d in s.objs
  {
    !(isDir && s.objs[d].xattr) && CanLookUp(s, d, name) && (d, name) !in s.entries
  }

  /** The new object gets the name and is otherwise alone. */
  predicate Made(s: Fs, s': Fs, d: Id, name: string, id: Id, isDir: bool)
    requires d in s.objs
  {
    && s'.entries == s.entries[(d, name) := id] && s'.unlinked == s.unlinked && s'.objs.Keys == s.objs.Keys + {id}
    && SameObjects(s.objs, s'.objs - {id})
    && id in s'.objs && s'.objs[id].isDir == isDir && s'.objs[id].xattr == s.objs[d].xattr
    && s'.objs[id].parent == d && s'.objs[id].xattrDir.None? && !s'.objs[id].unlinked
  }

  lemma MakeEffect(s: Fs, d: Id, name: string, id: Id, isDir: bool)
    requires IsDirectory(s, d) && id !in s.objs
    ensures var r := DoCreate(s, d, name, id, isDir);
            && (r.Ok? <==> CanMake(s, d, name, isDir))
            && (r.Ok? ==> Made(s, r.value, d, name, id, isDir))
            && (r == Err(EINVAL) <==> isDir && s.objs[d].xattr)
            && (r == Err(ENOENT) <==> !(isDir && s.objs[d].xattr) && GoodName(name) && s.objs[d].unlinked)
            && (r.Err? ==> r.errno in {EINVAL, ENOENT, EEXIST})
  {
  }

  // ----- link -----

  predicate CanNameAlso(s: Fs, src: Id, d: Id, name: string)
    requires src in s.objs && d in s.objs
  {
    && s.objs[src].xattr == s.objs[d].xattr && !s.objs[src].isDir && !s.objs[src].unlinked
    && CanLookUp(s, d, name) && (d, name) !in s.entries
  }

  lemma LinkEffect(s: Fs, src: Id, d: Id, name: string)
    requires src in s.objs && IsDirectory(s, d)
    ensures var r := DoLink(s, src, d, name);
            && (r.Ok? <==> CanNameAlso(s, src, d, name))
            && (r.Ok? ==> && r.value.entries == s.entries[(d, name) := src] && SameObjects(s.objs, r.value.objs)
                          && r.value.objs[src].parent == d && r.value.unlinked == s.unlinked)
            && (r == Err(EINVAL) <==> s.objs[src].xattr != s.objs[d].xattr)
            && (r == Err(EPERM) <==> s.objs[src].xattr == s.objs[d].xattr && s.objs[src].isDir)
            && (r.Err? ==> r.errno in {EINVAL, EPERM, ENOENT, EEXIST})
  {
  }

  // ----- remove -----

  predicate CanRemove(s: Fs, d: Id, name: string)
    requires d in s.objs
  {
    CanLookUp(s, d, name) && (d, name) in s.entries && s.entries[(d, name)] in s.objs
    && !s.objs[s.entries[(d, name)]].isDir
  }

  /** The name goes; the object goes with it if it was its only name and nobody has it open. */
  predicate Removed(s: Fs, s': Fs, d: Id, name: string, now: bool)
    requires (d, name) in s.entries
  {
    var id := s.entries[(d, name)];
    && s'.entries == s.entries - {(d, name)}
    && s'.objs.Keys == s.objs.Keys - (if now && OnlyName(s, d, name, id) then {id} else {})
    && forall x :: x in s'.objs && x in s.objs ==> s'.objs[x].isDir == s.objs[x].isDir && s'.objs[x].xattr == s.objs[x].xattr
  }

  /** A file loses its last link exactly when the name was its only one. */
  lemma LastLink(s: Fs, d: Id, name: string, id: Id)
    requires id in s.objs && !s.objs[id].isDir && ObjOk(s, id) && (d, name) in s.entries && s.entries[(d, name)] == id
    ensures Unlink(s.objs[id]).unlinked <==> OnlyName(s, d, name, id)
  {
    var names := Names(s.entries, id);
    assert (d, name) in names;
    if OnlyName(s, d, name, id) {
      assert names == {(d, name)};
    } else {
      var k :| k in s.entries && s.entries[k] == id && k != (d, name);
      assert k in names - {(d, name)} && |names| == |names - {(d, name)}| + 1;
      assert |names - {(d, name)}| == |names - {(d, name)} - {k}| + 1;
    }
  }

  lemma RemoveEffect(s: Fs, d: Id, name: string, now: bool)
    requires IsDirectory(s, d) && Bound(s, d, name)
    ensures var r := DoRemove(s, d, name, now);
            && (r.Ok? <==> CanRemove(s, d, name))
            && (r == Err(EEXIST) <==> !GoodName(name))
            && (r == Err(EPERM) <==> CanLookUp(s, d, name) && (d, name) in s.entries && !CanRemove(s, d, name))
            && (r.Err? ==> r.errno in {EEXIST, EPERM, ENOENT})
    ensures DoRemove(s, d, name, now).Ok? ==> Removed(s, DoRemove(s, d, name, now).value, d, name, now)
  {
    if CanRemove(s, d, name) {
      RemovedIs(s, d, name, s.entries[(d, name)], now);
    }
  }

  lemma RemovedIs(s: Fs, d: Id, name: string, id: Id, now: bool)
    requires d in s.objs && CanRemove(s, d, name) && id == s.entries[(d, name)] && Bound(s, d, name)
    ensures DoRemove(s, d, name, now).Ok? && Removed(s, DoRemove(s, d, name, now).value, d, name, now)
  {
    LastLink(s, d, name, id);
    RemoveNowIs(s, d, name, id);
    DroppedObjects(s, d, name, id);
    DeletedObjects(Dropped(s, d, name, id), id);
  }

  lemma DroppedObjects(s: Fs, d: Id, name: string, id: Id)
    requires EntryOk(s.objs, d, id)
    ensures Dropped(s, d, name, id).entries == s.entries - {(d, name)} && SameObjects(s.objs, Dropped(s, d, name, id).objs)
  {
  }

  lemma DeletedObjects(s: Fs, id: Id)
    requires id in s.objs
    ensures var s' := DoRmnode(s, id);
            && s'.entries == s.entries && s'.objs.Keys == s.objs.Keys - {id}
            && forall x :: x in s'.objs ==> s'.objs[x].isDir == s.objs[x].isDir && s'.objs[x].xattr == s.objs[x].xattr
  {
  }

  // ----- rmdir -----

  predicate CanRmdir(s: Fs, d: Id, name: string)
    requires d in s.objs
  {
    && CanLookUp(s, d, name) && (d, name) in s.entries && s.entries[(d, name)] in s.objs
    && s.objs[s.entries[(d, name)]].isDir && Empty(s, s.entries[(d, name)])
  }

  lemma ListsNothing(s: Fs, d: Id)
    ensures Listed(s.entries, d) == {} <==> Empty(s, d)
  {
    if Listed(s.entries, d) == {} {
      forall k | k in s.entries ensures k.0 != d {
        assert k !in Listed(s.entries, d);
      }
    }
  }

  lemma DestroyEffect(s: Fs, d: Id, name: string, id: Id)
    requires EntryOk(s.objs, d, id) && ObjOk(s, id)
    ensures var r := LinkDestroy(s, d, name, id, true);
            && (r.Ok? <==> (s.objs[id].isDir ==> Empty(s, id))) && (r.Err? ==> r.errno == EEXIST)
            && (r.Ok? ==> r.value.entries == s.entries - {(d, name)} && SameObjects(s.objs, r.value.objs))
  {
    LinkDestroyIs(s, d, name, id);
    ListsNothing(s, id);
    DroppedObjects(s, d, name, id);
  }

  lemma RmdirEffect(s: Fs, d: Id, name: string)
    requires IsDirectory(s, d) && Bound(s, d, name)
    ensures var r := DoRmdir(s, d, name);
            && (r.Ok? <==> CanRmdir(s, d, name))
            && (r.Ok? ==> r.value.entries == s.entries - {(d, name)} && SameObjects(s.objs, r.value.objs))
            && (r == Err(ENOENT) <==> GoodName(name) && (s.objs[d].unlinked || (d, name) !in s.entries))
            && (r == Err(ENOTDIR) <==>
                  CanLookUp(s, d, name) && (d, name) in s.entries && !s.objs[s.entries[(d, name)]].isDir)
            && (r.Err? ==> r.errno in {EEXIST, ENOTDIR, ENOENT})
  {
    if (d, name) in s.entries {
      DestroyEffect(s, d, name, s.entries[(d, name)]);
    }
  }

  // ----- attribute directories, and what is left of an unlinked object -----

  /** The new attribute directory belongs to its owner, and no name has changed. */
  lemma XattrEffect(s: Fs, owner: Id, id: Id)
    requires owner in s.objs && id !in s.objs
    ensures var s' := DoMakeXattrDir(s, owner, id);
            && s'.entries == s.entries && s'.unlinked == s.unlinked && s'.objs.Keys == s.objs.Keys + {id}
            && s'.objs[owner] == s.objs[owner].(xattrDir := Some(id))
            && s'.objs[id].isDir && s'.objs[id].xattr && s'.objs[id].parent == owner && s'.objs[id].xattrDir.None?
            && forall x :: x in s.objs && x != owner ==> s'.objs[x] == s.objs[x]
  {
  }

  /** A name in an unlinked attribute directory goes. */
  lemma PurgeEffect(s: Fs, d: Id, name: string)
    requires d in s.objs && (d, name) in s.entries && Bound(s, d, name) && s.objs[d].xattr
    ensures var r := DoPurge(s, d, name);
            r.Ok? && r.value.entries == s.entries - {(d, name)} && SameObjects(s.objs, r.value.objs)
  {
    DestroyEffect(s, d, name, s.entries[(d, name)]);
  }

  // ----- rename -----

  /** Both names can be looked up, and the first one names something. */
  predicate CanFind(s: Fs, sd: Id, sname: string, td: Id, tname: string)
    requires sd in s.objs && td in s.objs
  {
    && s.objs[td].xattr == s.objs[sd].xattr && CanLookUp(s, sd, sname) && CanLookUp(s, td, tname)
    && (sd, sname) in s.entries && s.entries[(sd, sname)] in s.objs
  }

  /** What is moved is not a directory that would come to lie in itself. */
  ghost predicate NoLoop(s: Fs, id: Id, td: Id)
    requires id in s.objs
  {
    s.objs[id].isDir ==> !AtOrAbove(Parents(s), s.root, id, td)
  }

  /** What is replaced is of the same kind and, if it is another directory, empty. */
  predicate CanReplace(s: Fs, id: Id, target: Id)
    requires id in s.objs && target in s.objs
  {
    s.objs[id].isDir == s.objs[target].isDir && (id != target && s.objs[target].isDir ==> Empty(s, target))
  }

  ghost predicate CanRename(s: Fs, sd: Id, sname: string, td: Id, tname: string)
    requires sd in s.objs && td in s.objs
  {
    s.objs[td].xattr == s.objs[sd].xattr &&
    ((sd == td && sname == tname) ||
     (&& CanFind(s, sd, sname, td, tname) && NoLoop(s, s.entries[(sd, sname)], td)
      && ((td, tname) in s.entries && s.entries[(td, tname)] in s.objs ==>
            CanReplace(s, s.entries[(sd, sname)], s.entries[(td, tname)]))))
  }

  /** The entries after a rename: the object has the new name instead of the old one, and no other name has changed.
      Nothing happens if both names are the same or name the same object already. */
  function RenamedEntries(entries: map<Key, Id>, source: Key, target: Key): map<Key, Id>
    requires source != target ==> source in entries
  {
    if source == target || (target in entries && entries[source] == entries[target]) then entries
    else entries[target := entries[source]] - {source}
  }

  predicate Renamed(s: Fs, s': Fs, source: Key, target: Key) {
    && (source == target || source in s.entries)
    && s'.entries == RenamedEntries(s.entries, source, target) && SameObjects(s.objs, s'.objs)
    && (target in s'.entries && s'.entries != s.entries ==>
          s'.entries[target] in s'.objs && s'.objs[s'.entries[target]].parent == target.0)
  }

  lemma MoveEffect(s: Fs, sd: Id, sname: string, td: Id, tname: string, id: Id)
    requires sd in s.objs && td in s.objs && id in s.objs
    ensures var s' := Move(s, sd, sname, td, tname, id);
            && s'.entries == s.entries[(td, tname) := id] - {(sd, sname)}
            && SameObjects(s.objs, s'.objs) && s'.objs[id].parent == td
  {
  }

  /** The object takes a free name. */
  lemma FreeMove(s: Fs, sd: Id, sname: string, td: Id, tname: string, id: Id)
    requires sd in s.objs && td in s.objs && id in s.objs && (sd, sname) in s.entries && s.entries[(sd, sname)] == id
    requires (td, tname) !in s.entries
    ensures var r := DoMove(s, sd, sname, td, tname, id, None);
            && (r.Ok? <==> NoLoop(s, id, td)) && (r.Err? ==> r.errno == EINVAL)
            && (r.Ok? ==> Renamed(s, r.value, (sd, sname), (td, tname)))
  {
    MoveEffect(s, sd, sname, td, tname, id);
  }

  lemma ReplaceEntries(entries: map<Key, Id>, source: Key, target: Key)
    requires source in entries && source != target
    ensures (entries - {target})[target := entries[source]] - {source} == entries[target := entries[source]] - {source}
  {
  }

  lemma SameObjectsTrans(a: map<Id, Obj>, b: map<Id, Obj>, c: map<Id, Obj>)
    requires SameObjects(a, b) && SameObjects(b, c)
    ensures SameObjects(a, c)
  {
  }

  /** The object takes the name of another one, which loses it. */
  lemma ReplacingMove(s: Fs, sd: Id, sname: string, td: Id, tname: string, id: Id, target: Id)
    requires sd in s.objs && td in s.objs && id in s.objs && (sd, sname) in s.entries && s.entries[(sd, sname)] == id
    requires (td, tname) in s.entries && s.entries[(td, tname)] == target && (sd, sname) != (td, tname)
    requires EntryOk(s.objs, td, target) && ObjOk(s, target) && id != target
    ensures LinkDestroy(s, td, tname, target, true).Ok? <==> (s.objs[target].isDir ==> Empty(s, target))
    ensures LinkDestroy(s, td, tname, target, true).Err? ==> LinkDestroy(s, td, tname, target, true).errno == EEXIST
    ensures LinkDestroy(s, td, tname, target, true).Ok? ==>
              var s1 := LinkDestroy(s, td, tname, target, true).value;
              && sd in s1.objs && td in s1.objs && id in s1.objs
              && var s2 := Move(s1, sd, sname, td, tname, id);
                 && s2.entries == RenamedEntries(s.entries, (sd, sname), (td, tname)) && SameObjects(s.objs, s2.objs)
                 && s2.objs[id].parent == td
  {
    DestroyEffect(s, td, tname, target);
    var r := LinkDestroy(s, td, tname, target, true);
    if r.Ok? {
      MoveEffect(r.value, sd, sname, td, tname, id);
      ReplaceEntries(s.entries, (sd, sname), (td, tname));
      SameObjectsTrans(s.objs, r.value.objs, Move(r.value, sd, sname, td, tname, id).objs);
    }
  }

  lemma TakenMove(s: Fs, sd: Id, sname: string, td: Id, tname: string, id: Id, target: Id)
    requires sd in s.objs && td in s.objs && id in s.objs && (sd, sname) in s.entries && s.entries[(sd, sname)] == id
    requires (td, tname) in s.entries && s.entries[(td, tname)] == target && (sd, sname) != (td, tname)
    requires EntryOk(s.objs, td, target) && ObjOk(s, target)
    ensures var r := DoMove(s, sd, sname, td, tname, id, Some(target));
            && (r.Ok? <==> NoLoop(s, id, td) && CanReplace(s, id, target))
            && (r.Ok? ==> Renamed(s, r.value, (sd, sname), (td, tname)))
            && (r == Err(EINVAL) <==> !NoLoop(s, id, td))
            && (r == Err(ENOTDIR) <==> NoLoop(s, id, td) && s.objs[id].isDir && !s.objs[target].isDir)
            && (r == Err(EISDIR) <==> !s.objs[id].isDir && s.objs[target].isDir)
            && (r.Err? ==> r.errno in {EINVAL, EEXIST, ENOTDIR, EISDIR})
  {
    if id != target {
      ReplacingMove(s, sd, sname, td, tname, id, target);
    }
  }

  lemma {:induction false} DoMoveEffect(s: Fs, sd: Id, sname: string, td: Id, tname: string)
    requires sd in s.objs && td in s.objs && CanFind(s, sd, sname, td, tname) && (sd, sname) != (td, tname)
    requires Bound(s, td, tname)
    ensures var id := s.entries[(sd, sname)];
            var r := DoMove(s, sd, sname, td, tname, id,
                            if (td, tname) in s.entries then Some(s.entries[(td, tname)]) else None);
            && (r.Ok? <==> CanRename(s, sd, sname, td, tname))
            && (r.Ok? ==> Renamed(s, r.value, (sd, sname), (td, tname)))
  {
    var id := s.entries[(sd, sname)];
    if (td, tname) in s.entries {
      TakenMove(s, sd, sname, td, tname, id, s.entries[(td, tname)]);
    } else {
      FreeMove(s, sd, sname, td, tname, id);
    }
  }

  /** Rename finds both names exactly under this condition, and then only the move decides. */
  lemma RenameFinds(s: Fs, sd: Id, sname: string, td: Id, tname: string)
    requires sd in s.objs && td in s.objs && (sd, sname) != (td, tname) && Bound(s, sd, sname)
    ensures DoRename(s, sd, sname, td, tname) ==
            if CanFind(s, sd, sname, td, tname) then
              DoMove(s, sd, sname, td, tname, s.entries[(sd, sname)],
                     if (td, tname) in s.entries then Some(s.entries[(td, tname)]) else None)
            else Err(WhyNotFound(s, sd, sname, td, tname))
  {
  }

  /** The reason why rename cannot even look at its names: source before target, and a name before its directory. */
  function WhyNotFound(s: Fs, sd: Id, sname: string, td: Id, tname: string): Errno
    requires sd in s.objs && td in s.objs
  {
    if s.objs[td].xattr != s.objs[sd].xattr || sname == ".." then EINVAL
    else if sname == "." then EEXIST
    else if s.objs[sd].unlinked || (sd, sname) !in s.entries then ENOENT
    else if tname == ".." then EINVAL
    else if tname == "." then EEXIST
    else ENOENT
  }

  lemma RenameEffect(s: Fs, sd: Id, sname: string, td: Id, tname: string)
    requires sd in s.objs && td in s.objs && Bound(s, sd, sname) && Bound(s, td, tname)
    ensures var r := DoRename(s, sd, sname, td, tname);
            && (r.Ok? <==> CanRename(s, sd, sname, td, tname))
            && (r.Ok? ==> Renamed(s, r.value, (sd, sname), (td, tname)))
  {
    if (sd, sname) != (td, tname) {
      RenameFinds(s, sd, sname, td, tname);
      if CanFind(s, sd, sname, td, tname) {
        DoMoveEffect(s, sd, sname, td, tname);
      }
    }
  }
}
