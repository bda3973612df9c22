/**
 The directory namespace: objects with their link counts and sizes, the entries that name them, and the set of
 objects that have no links left but are not deleted yet. Each operation is one transaction.
 */
module NamespaceModel {
  import opened RenameModel

  type Key = (Id, string)

  datatype Errno = EINVAL | EPERM | EEXIST | ENOENT | ENOTDIR | EISDIR

  datatype Result<T> = Ok(value: T) | Err(errno: Errno)

  /** An object: `links` and `size` as stored, the directory it was linked into last, its extended attribute directory,
      and the in-core mark that it is to be deleted. The size matters for directories only. */
  datatype Obj = Obj(isDir: bool, xattr: bool, links: int, size: int, parent: Id, xattrDir: Option<Id>, unlinked: bool)

  datatype Fs = Fs(root: Id, objs: map<Id, Obj>, entries: map<Key, Id>, unlinked: set<Id>)

  function Bit(b: bool): int {
    if b then 1 else 0
  }

  // ----- links -----

  /** zfs_link_create, after its check that the object may get a new link. */
  function LinkCreate(s: Fs, d: Id, name: string, id: Id, renaming: bool): Fs
    requires d in s.objs && id in s.objs
  {
    var o := s.objs[id];
    var objs := s.objs[id := o.(links := o.links + Bit(!renaming), parent := d)];
    s.(objs := objs[d := objs[d].(size := objs[d].size + 1, links := objs[d].links + Bit(o.isDir))],
       entries := s.entries[(d, name) := id])
  }

  /** The object after it has lost a link. A link count that is too small is first set right. */
  function Unlink(o: Obj): Obj {
    var links := (if o.links <= Bit(o.isDir) then Bit(o.isDir) + 1 else o.links) - 1;
    if links == Bit(o.isDir) then o.(links := 0, unlinked := true) else o.(links := links)
  }

  /** The entry and the directory's share of zfs_link_destroy. */
  function DropEntry(s: Fs, d: Id, name: string, wasDir: bool): Fs
    requires d in s.objs
  {
    var dir := s.objs[d];
    s.(objs := s.objs[d := dir.(size := dir.size - 1, links := dir.links - Bit(wasDir))],
       entries := s.entries - {(d, name)})
  }

  /** zfs_link_destroy for a name that goes away; directories must be empty. An object that lost its last link goes
      into the unlinked set when `queue` is set; otherwise that is the caller's business. */
  function LinkDestroy(s: Fs, d: Id, name: string, id: Id, queue: bool): Result<Fs>
    requires d in s.objs && id in s.objs
  {
    var o := s.objs[id];
    if o.isDir && o.size != 2 then Err(EEXIST)
    else
      var o' := Unlink(o);
      var s' := DropEntry(s.(objs := s.objs[id := o']), d, name, o.isDir);
      Ok(if queue && o'.unlinked then s'.(unlinked := s'.unlinked + {id}) else s')
  }

  /** The extended attribute directory of a deleted object loses its only link. */
  function Orphan(s: Fs, x: Option<Id>): Fs {
    if x.Some? && x.value in s.objs then
      s.(objs := s.objs[x.value := s.objs[x.value].(links := 0, unlinked := true)], unlinked := s.unlinked + {x.value})
    else s
  }

  function Delete(s: Fs, id: Id): Fs {
    s.(objs := s.objs - {id}, unlinked := s.unlinked - {id})
  }

  // ----- operations -----

  datatype Need = New | Exists | Any

  /** The checks and the lookup of zfs_dirent_lock. */
  function Lookup(s: Fs, d: Id, name: string, need: Need): Result<Option<Id>>
    requires d in s.objs
  {
    if name == "." || name == ".." then Err(EEXIST)
    else if s.objs[d].unlinked then Err(ENOENT)
    else if (d, name) in s.entries then if need == New then Err(EEXIST) else Ok(Some(s.entries[(d, name)]))
    else if need == Exists then Err(ENOENT) else Ok(None)
  }

  datatype Op =
    | Create(d: Id, name: string, id: Id)
    | Mkdir(d: Id, name: string, id: Id)
    | MakeXattrDir(owner: Id, id: Id)
    | Link(src: Id, d: Id, name: string)
    | Remove(d: Id, name: string, now: bool)
    | Rmdir(d: Id, name: string)
    | Rename(sd: Id, sname: string, td: Id, tname: string)
    | Purge(d: Id, name: string)
    | Rmnode(id: Id)

  predicate IsDirectory(s: Fs, d: Id) {
    d in s.objs && s.objs[d].isDir
  }

  /** What callers are held to: the directories they pass exist, new object ids are free, and only objects in the
      unlinked set are purged and deleted, an attribute directory only when it is empty. */
  predicate Allowed(s: Fs, op: Op) {
    match op
    case Create(d, _, id) => IsDirectory(s, d) && id !in s.objs
    case Mkdir(d, _, id) => IsDirectory(s, d) && id !in s.objs
    case MakeXattrDir(owner, id) =>
      owner in s.objs && !s.objs[owner].xattr && s.objs[owner].xattrDir.None? && id !in s.objs
    case Link(src, d, _) => src in s.objs && IsDirectory(s, d)
    case Remove(d, _, _) => IsDirectory(s, d)
    case Rmdir(d, _) => IsDirectory(s, d)
    case Rename(sd, _, td, _) => IsDirectory(s, sd) && IsDirectory(s, td)
    case Purge(d, name) => d in s.unlinked && IsDirectory(s, d) && s.objs[d].xattr && (d, name) in s.entries
    case Rmnode(id) =>
      id in s.unlinked && id in s.objs && (s.objs[id].isDir && s.objs[id].xattr ==> forall k :: k in s.entries ==> k.0 != id)
  }

  /** zfs_mknode: a plain directory gets its link for "." at once and the other one with its name. */
  function NewObj(s: Fs, d: Id, isDir: bool): Obj
    requires d in s.objs
  {
    Obj(isDir, s.objs[d].xattr, Bit(isDir), if isDir then 2 else 0, d, None, false)
  }

  function DoCreate(s: Fs, d: Id, name: string, id: Id, isDir: bool): Result<Fs>
    requires d in s.objs && id !in s.objs
  {
    if isDir && s.objs[d].xattr then Err(EINVAL)
    else
      match Lookup(s, d, name, New)
      case Err(e) => Err(e)
      case Ok(_) => Ok(LinkCreate(s.(objs := s.objs[id := NewObj(s, d, isDir)]), d, name, id, false))
  }

  function DoMakeXattrDir(s: Fs, owner: Id, id: Id): Fs
    requires owner in s.objs && id !in s.objs
  {
    var o := s.objs[owner];
    s.(objs := s.objs[id := Obj(true, true, 2, 2, owner, None, false)][owner := o.(xattrDir := Some(id))])
  }

  function DoLink(s: Fs, src: Id, d: Id, name: string): Result<Fs>
    requires src in s.objs && d in s.objs
  {
    if s.objs[src].xattr != s.objs[d].xattr then Err(EINVAL)
    else if s.objs[src].isDir then Err(EPERM)
    else
      match Lookup(s, d, name, New)
      case Err(e) => Err(e)
      case Ok(_) => if s.objs[src].unlinked then Err(ENOENT) else Ok(LinkCreate(s, d, name, src, false))
  }

  /** zfs_remove. With `now`, nobody else has the file open and it is deleted in the same transaction. */
  function DoRemove(s: Fs, d: Id, name: string, now: bool): Result<Fs>
    requires d in s.objs
  {
    match Lookup(s, d, name, Exists)
    case Err(e) => Err(e)
    case Ok(found) =>
      if found.None? || found.value !in s.objs then Err(ENOENT)
      else
        var id := found.value;
        if s.objs[id].isDir then Err(EPERM)
        else
          match LinkDestroy(s, d, name, id, !now)
          case Err(e) => Err(e)
          case Ok(s') =>
            if now && id in s'.objs && s'.objs[id].unlinked then Ok(Delete(Orphan(s', s'.objs[id].xattrDir), id))
            else Ok(s')
  }

  function DoRmdir(s: Fs, d: Id, name: string): Result<Fs>
    requires d in s.objs
  {
    match Lookup(s, d, name, Exists)
    case Err(e) => Err(e)
    case Ok(found) =>
      if found.None? || found.value !in s.objs then Err(ENOENT)
      else if !s.objs[found.value].isDir then Err(ENOTDIR)
      else LinkDestroy(s, d, name, found.value, true)
  }

  /** The parents of the live directories, as the climb of a rename sees them. */
  function Parents(s: Fs): map<Id, Id> {
    map d | d in s.objs && s.objs[d].isDir && !s.objs[d].xattr && !s.objs[d].unlinked && d != s.root :: s.objs[d].parent
  }

  /** A dot or dot-dot name is an invalid argument to rename. */
  function DotError(name: string, e: Errno): Errno {
    if name == ".." then EINVAL else e
  }

  function Move(s: Fs, sd: Id, sname: string, td: Id, tname: string, id: Id): Fs
    requires sd in s.objs && td in s.objs && id in s.objs
  {
    DropEntry(LinkCreate(s, td, tname, id, true), sd, sname, s.objs[id].isDir)
  }

  /** The part of a rename after both names have been looked up. */
  ghost function DoMove(s: Fs, sd: Id, sname: string, td: Id, tname: string, id: Id, target: Option<Id>): Result<Fs>
    requires sd in s.objs && td in s.objs && id in s.objs
  {
    if s.objs[id].isDir && AtOrAbove(Parents(s), s.root, id, td) then Err(EINVAL)
    else if target.None? || target.value !in s.objs then Ok(Move(s, sd, sname, td, tname, id))
    else if s.objs[id].isDir && !s.objs[target.value].isDir then Err(ENOTDIR)
    else if !s.objs[id].isDir && s.objs[target.value].isDir then Err(EISDIR)
    else if id == target.value then Ok(s)
    else
      match LinkDestroy(s, td, tname, target.value, true)
      case Err(e) => Err(e)
      case Ok(s') => Ok(Move(s', sd, sname, td, tname, id))
  }

  ghost function DoRename(s: Fs, sd: Id, sname: string, td: Id, tname: string): Result<Fs>
    requires sd in s.objs && td in s.objs
  {
    if s.objs[td].xattr != s.objs[sd].xattr then Err(EINVAL)
    else if sd == td && sname == tname then Ok(s)
    else
      match Lookup(s, sd, sname, Exists)
      case Err(e) => Err(DotError(sname, e))
      case Ok(source) =>
        match Lookup(s, td, tname, Any)
        case Err(e) => Err(DotError(tname, e))
        case Ok(target) =>
          if source.None? || source.value !in s.objs then Err(ENOENT)
          else DoMove(s, sd, sname, td, tname, source.value, target)
  }

  /** One entry of zfs_purgedir. */
  function DoPurge(s: Fs, d: Id, name: string): Result<Fs>
    requires d in s.objs && (d, name) in s.entries
  {
    var id := s.entries[(d, name)];
    if id !in s.objs then Err(ENOENT) else LinkDestroy(s, d, name, id, true)
  }

  /** The final transaction of zfs_rmnode. */
  function DoRmnode(s: Fs, id: Id): Fs
    requires id in s.objs
  {
    Delete(Orphan(s, s.objs[id].xattrDir), id)
  }

  ghost function Perform(s: Fs, op: Op): Result<Fs>
    requires Allowed(s, op)
  {
    match op
    case Create(d, name, id) => DoCreate(s, d, name, id, false)
    case Mkdir(d, name, id) => DoCreate(s, d, name, id, true)
    case MakeXattrDir(owner, id) => Ok(DoMakeXattrDir(s, owner, id))
    case Link(src, d, name) => DoLink(s, src, d, name)
    case Remove(d, name, now) => DoRemove(s, d, name, now)
    case Rmdir(d, name) => DoRmdir(s, d, name)
    case Rename(sd, sname, td, tname) => DoRename(s, sd, sname, td, tname)
    case Purge(d, name) => DoPurge(s, d, name)
    case Rmnode(id) => Ok(DoRmnode(s, id))
  }

  /** A failed operation changes nothing. */
  ghost function Next(s: Fs, op: Op): Fs
    requires Allowed(s, op)
  {
    match Perform(s, op)
    case Ok(s') => s'
    case Err(_) => s
  }

  ghost predicate IsHistory(s: Fs, ops: seq<Op>)
    decreases |ops|
  {
    ops == [] || (Allowed(s, ops[0]) && IsHistory(Next(s, ops[0]), ops[1..]))
  }

  ghost function Final(s: Fs, ops: seq<Op>): Fs
    requires IsHistory(s, ops)
    decreases |ops|
  {
    if ops == [] then s else Final(Next(s, ops[0]), ops[1..])
  }

  /** A new file system holds the root directory. */
  function Fresh(root: Id): Fs {
    Fs(root, map[root := Obj(true, false, 2, 2, root, None, false)], map[], {})
  }
}
