/**
 The namespace as the file system updates it, link by link. Each operation is proved to have exactly the effect, or
 the error, of the corresponding transaction, and to keep the file system sound.
 */
module NamespaceFs {
  import opened RenameModel
  import opened NamespaceModel
  import opened NamespaceInvariant
  import opened NamespaceSteps
  import opened NamespaceTheorems
  import opened NamespaceEffects
  import RenameLock

  /** The operation succeeded with the new state `s'`, or failed and changed nothing. */
  ghost predicate Did(r: Result<Fs>, s: Fs, s': Fs, errno: Option<Errno>) {
    match r
    case Ok(s1) => s' == s1 && errno.None?
    case Err(e) => s' == s && errno == Some(e)
  }

  class FileSystem {
    const root: Id
    var objs: map<Id, Obj>
    var entries: map<Key, Id>
    var unlinked: set<Id>

    ghost function View(): Fs
      reads this
    {
      Fs(root, objs, entries, unlinked)
    }

    constructor (root: Id)
      ensures View() == NamespaceModel.Fresh(root) && Sound(View())
    {
      this.root := root;
      objs, entries, unlinked := map[root := Obj(true, false, 2, 2, root, None, false)], map[], {};
      new;
      FreshSound(root);
    }

    /** zfs_link_create. */
    method LinkCreate(d: Id, name: string, id: Id, renaming: bool) returns (errno: Option<Errno>)
      requires d in objs && id in objs
      modifies `objs, `entries
      ensures if !renaming && old(objs[id].unlinked) then errno == Some(ENOENT) && View() == old(View())
              else errno == None && View() == NamespaceModel.LinkCreate(old(View()), d, name, id, renaming)
    {
      var isDir := objs[id].isDir;
      if !renaming {
        if objs[id].unlinked {
          return Some(ENOENT);
        }
        objs := objs[id := objs[id].(links := objs[id].links + 1)];
      }
      objs := objs[id := objs[id].(parent := d)];
      objs := objs[d := objs[d].(size := objs[d].size + 1, links := objs[d].links + Bit(isDir))];
      entries := entries[(d, name) := id];
      errno := None;
    }

    /** The directory's share of zfs_link_destroy; all there is to do when renaming. */
    method DropEntry(d: Id, name: string, isDir: bool)
      requires d in objs
      modifies `objs, `entries
      ensures View() == NamespaceModel.DropEntry(old(View()), d, name, isDir)
    {
      objs := objs[d := objs[d].(size := objs[d].size - 1, links := objs[d].links - Bit(isDir))];
      entries := entries - {(d, name)};
    }

    method LoseLink(id: Id) returns (last: bool)
      requires id in objs
      modifies `objs
      ensures objs == old(objs)[id := Unlink(old(objs[id]))] && last == objs[id].unlinked
    {
      var isDir := objs[id].isDir;
      if objs[id].links <= Bit(isDir) {
        objs := objs[id := objs[id].(links := Bit(isDir) + 1)];
      }
      objs := objs[id := objs[id].(links := objs[id].links - 1)];
      if objs[id].links == Bit(isDir) {
        objs := objs[id := objs[id].(links := 0, unlinked := true)];
      }
      last := objs[id].unlinked;
    }

    /** zfs_link_destroy for a name that goes away. */
    method LinkDestroy(d: Id, name: string, id: Id, queue: bool) returns (errno: Option<Errno>, last: bool)
      requires d in objs && id in objs && d != id
      modifies `objs, `entries, `unlinked
      ensures Did(NamespaceModel.LinkDestroy(old(View()), d, name, id, queue), old(View()), View(), errno)
      ensures errno.None? ==> last == Unlink(old(objs[id])).unlinked
    {
      var isDir := objs[id].isDir;
      if isDir && objs[id].size != 2 {
        return Some(EEXIST), false;
      }
      last := LoseLink(id);
      DropEntry(d, name, isDir);
      if queue && last {
        unlinked := unlinked + {id};
      }
      errno := None;
    }

    /** An object without links goes; its attribute directory joins the unlinked set. */
    method DeleteNode(id: Id)
      requires id in objs
      modifies `objs, `unlinked
      ensures View() == DoRmnode(old(View()), id)
    {
      var x := objs[id].xattrDir;
      if x.Some? && x.value in objs {
        objs := objs[x.value := objs[x.value].(links := 0, unlinked := true)];
        unlinked := unlinked + {x.value};
      }
      unlinked := unlinked - {id};
      objs := objs - {id};
    }

    /** zfs_remove of a name that was found. */
    method RemoveFound(d: Id, name: string, id: Id, now: bool) returns (errno: Option<Errno>)
      requires (d, name) in entries && entries[(d, name)] == id && EntryOk(objs, d, id)
      requires Lookup(View(), d, name, Exists) == Ok(Some(id))
      modifies `objs, `entries, `unlinked
      ensures Did(DoRemove(old(View()), d, name, now), old(View()), View(), errno)
    {
      if objs[id].isDir {
        return Some(EPERM);
      }
      var last;
      errno, last := LinkDestroy(d, name, id, !now);
      if now && last {
        DeleteNode(id);
      }
    }

    /** zfs_remove. With `now`, nobody else has the file open. */
    method Remove(d: Id, name: string, now: bool) returns (errno: Option<Errno>)
      requires Sound(View()) && IsDirectory(View(), d)
      modifies `objs, `entries, `unlinked
      ensures Did(DoRemove(old(View()), d, name, now), old(View()), View(), errno) && Sound(View())
      ensures errno.None? <==> old(CanRemove(View(), d, name))
      ensures errno.None? ==> Removed(old(View()), View(), d, name, now)
    {
      ghost var s := View();
      AlwaysBound(s, d, name);
      RemoveEffect(s, d, name, now);
      var found := Lookup(Fs(root, objs, entries, unlinked), d, name, Exists);
      if found.Err? {
        return Some(found.errno);
      }
      LookedUp(View(), d, name, Exists);
      var id := entries[(d, name)];
      errno := RemoveFound(d, name, id, now);
      if errno.None? {
        RemoveSound(s, d, name, now);
      }
    }

    /** The move of a rename: the new name first, then the old one goes. */
    method MoveName(sd: Id, sname: string, td: Id, tname: string, id: Id)
      requires sd in objs && td in objs && id in objs
      modifies `objs, `entries
      ensures View() == Move(old(View()), sd, sname, td, tname, id)
    {
      var isDir := objs[id].isDir;
      var errno := LinkCreate(td, tname, id, true);
      DropEntry(sd, sname, isDir);
    }

    /** Is moving directory `id` into `td` refused by the climb? */
    method Climb(sd: Id, sname: string, td: Id, id: Id) returns (refused: bool)
      requires Sound(View()) && (sd, sname) in entries && entries[(sd, sname)] == id && EntryOk(objs, sd, id)
      requires objs[id].isDir && IsDirectory(View(), td) && !objs[td].unlinked && !objs[td].xattr && !objs[sd].xattr
      ensures refused == AtOrAbove(Parents(View()), root, id, td)
    {
      ClimbReady(View(), sd, sname, id);
      var parents := Parents(Fs(root, objs, entries, unlinked));
      var held;
      refused, held := RenameLock.RenameLock(root, parents, id, td, sd);
    }

    /** The part of zfs_rename after both names have been locked. */
    method MoveFound(sd: Id, sname: string, td: Id, tname: string, id: Id, target: Option<Id>)
      returns (errno: Option<Errno>)
      requires Sound(View()) && (sd, sname) in entries && entries[(sd, sname)] == id && EntryOk(objs, sd, id)
      requires IsDirectory(View(), td) && !objs[td].unlinked && objs[td].xattr == objs[sd].xattr
      requires target == (if (td, tname) in entries then Some(entries[(td, tname)]) else None)
      requires target.Some? ==> EntryOk(objs, td, target.value)
      modifies `objs, `entries, `unlinked
      ensures Did(DoMove(old(View()), sd, sname, td, tname, id, target), old(View()), View(), errno)
    {
      if objs[id].isDir {
        var refused := Climb(sd, sname, td, id);
        if refused {
          return Some(EINVAL);
        }
      }
      if target.Some? {
        if objs[id].isDir && !objs[target.value].isDir {
          return Some(ENOTDIR);
        }
        if !objs[id].isDir && objs[target.value].isDir {
          return Some(EISDIR);
        }
        if id == target.value {
          return None;
        }
        var last;
        errno, last := LinkDestroy(td, tname, target.value, true);
        if errno.Some? {
          return;
        }
      }
      MoveName(sd, sname, td, tname, id);
      errno := None;
    }

    /** zfs_rename. */
    method Rename(sd: Id, sname: string, td: Id, tname: string) returns (errno: Option<Errno>)
      requires Sound(View()) && IsDirectory(View(), sd) && IsDirectory(View(), td)
      modifies `objs, `entries, `unlinked
      ensures Did(DoRename(old(View()), sd, sname, td, tname), old(View()), View(), errno) && Sound(View())
      ensures errno.None? <==> old(CanRename(View(), sd, sname, td, tname))
      ensures errno.None? ==> Renamed(old(View()), View(), (sd, sname), (td, tname))
    {
      ghost var s := View();
      AlwaysBound(s, sd, sname);
      AlwaysBound(s, td, tname);
      RenameEffect(s, sd, sname, td, tname);
      if objs[td].xattr != objs[sd].xattr {
        return Some(EINVAL);
      }
      if sd == td && sname == tname {
        return None;
      }
      var source := Lookup(Fs(root, objs, entries, unlinked), sd, sname, Exists);
      if source.Err? {
        return Some(DotError(sname, source.errno));
      }
      var target := Lookup(Fs(root, objs, entries, unlinked), td, tname, Any);
      if target.Err? {
        return Some(DotError(tname, target.errno));
      }
      LookedUp(View(), sd, sname, Exists);
      LookedUp(View(), td, tname, Any);
      errno := MoveFound(sd, sname, td, tname, source.value.value, target.value);
      if errno.None? {
        RenameSound(s, sd, sname, td, tname);
      }
    }

    /** zfs_create and zfs_mkdir. */
    method Make(d: Id, name: string, id: Id, isDir: bool) returns (errno: Option<Errno>)
      requires Sound(View()) && IsDirectory(View(), d) && id !in objs
      modifies `objs, `entries
      ensures Did(DoCreate(old(View()), d, name, id, isDir), old(View()), View(), errno) && Sound(View())
      ensures errno.None? <==> old(CanMake(View(), d, name, isDir))
      ensures errno.None? ==> Made(old(View()), View(), d, name, id, isDir)
    {
      ghost var s := View();
      MakeEffect(s, d, name, id, isDir);
      if isDir && objs[d].xattr {
        return Some(EINVAL);
      }
      var found := Lookup(Fs(root, objs, entries, unlinked), d, name, New);
      if found.Err? {
        return Some(found.errno);
      }
      objs := objs[id := NewObj(Fs(root, objs, entries, unlinked), d, isDir)];
      errno := LinkCreate(d, name, id, false);
      CreateSound(s, d, name, id, isDir);
    }

    /** zfs_link. */
    method Link(src: Id, d: Id, name: string) returns (errno: Option<Errno>)
      requires Sound(View()) && src in objs && IsDirectory(View(), d)
      modifies `objs, `entries
      ensures Did(DoLink(old(View()), src, d, name), old(View()), View(), errno) && Sound(View())
      ensures errno.None? <==> old(CanNameAlso(View(), src, d, name))
      ensures errno.None? ==> entries == old(entries)[(d, name) := src] && SameObjects(old(objs), objs)
    {
      ghost var s := View();
      LinkEffect(s, src, d, name);
      if objs[src].xattr != objs[d].xattr {
        return Some(EINVAL);
      }
      if objs[src].isDir {
        return Some(EPERM);
      }
      var found := Lookup(Fs(root, objs, entries, unlinked), d, name, New);
      if found.Err? {
        return Some(found.errno);
      }
      errno := LinkCreate(d, name, src, false);
      if errno.None? {
        LinkSound(s, src, d, name);
      }
    }

    /** zfs_rmdir. */
    method Rmdir(d: Id, name: string) returns (errno: Option<Errno>)
      requires Sound(View()) && IsDirectory(View(), d)
      modifies `objs, `entries, `unlinked
      ensures Did(DoRmdir(old(View()), d, name), old(View()), View(), errno) && Sound(View())
      ensures errno.None? <==> old(CanRmdir(View(), d, name))
      ensures errno.None? ==> entries == old(entries) - {(d, name)} && SameObjects(old(objs), objs)
    {
      ghost var s := View();
      AlwaysBound(s, d, name);
      RmdirEffect(s, d, name);
      var found := Lookup(Fs(root, objs, entries, unlinked), d, name, Exists);
      if found.Err? {
        return Some(found.errno);
      }
      LookedUp(View(), d, name, Exists);
      var id := entries[(d, name)];
      if !objs[id].isDir {
        return Some(ENOTDIR);
      }
      var last;
      errno, last := LinkDestroy(d, name, id, true);
      if errno.None? {
        RmdirSound(s, d, name);
      }
    }

    /** The final transaction of zfs_rmnode. */
    method FreeNode(id: Id)
      requires Sound(View()) && Allowed(View(), Rmnode(id))
      modifies `objs, `unlinked
      ensures View() == DoRmnode(old(View()), id) && Sound(View())
    {
      CanRmnode(View(), id);
      DeletedSound(View(), id);
      DeleteNode(id);
    }
  }

  /** What a successful lookup finds is a sound entry. */
  lemma LookedUp(s: Fs, d: Id, name: string, need: Need)
    requires Inv(s) && d in s.objs && Lookup(s, d, name, need).Ok?
    ensures !s.objs[d].unlinked
    ensures Lookup(s, d, name, need).value == if (d, name) in s.entries then Some(s.entries[(d, name)]) else None
    ensures (d, name) in s.entries ==> EntryOk(s.objs, d, s.entries[(d, name)])
    ensures need == Exists ==> (d, name) in s.entries
  {
  }

  /** The entry that names a live directory is in its parent. */
  lemma ClimbReady(s: Fs, sd: Id, sname: string, id: Id)
    requires Sound(s) && (sd, sname) in s.entries && s.entries[(sd, sname)] == id && EntryOk(s.objs, sd, id)
    requires s.objs[id].isDir && !s.objs[sd].xattr
    ensures id in Parents(s) && Parents(s)[id] == sd
  {
    assert ObjOk(s, id);
    assert (sd, sname) in Names(s.entries, id);
  }
}
