/**
 The namespace over whole histories: the counts are right, the live directories are a tree, and no object is lost.
 */
module NamespaceTheorems {
  import opened RenameModel
  import opened RenameTree
  import opened NamespaceModel
  import opened NamespaceInvariant
  import opened NamespaceSteps

  ghost predicate Sound(s: Fs) {
    Inv(s) && IsTree(Parents(s), s.root)
  }

  // ----- a move -----

  lemma MovedCounts(s: Fs, sd: Id, sname: string, td: Id, tname: string, id: Id)
    requires CanMove(s, sd, sname, td, tname, id) && AllCounted(s)
    ensures AllCounted(Moved(s, sd, sname, td, tname, id))
  {
    var s' := Moved(s, sd, sname, td, tname, id);
    forall x | x in s'.objs ensures ObjOk(s', x) {
      assert ObjOk(s, x);
      MovedCount(s, sd, sname, td, tname, id, x);
    }
  }

  lemma MovedKinds(s: Fs, sd: Id, sname: string, td: Id, tname: string, id: Id)
    requires CanMove(s, sd, sname, td, tname, id) && ObjOk(s, sd) && ObjOk(s, td)
    ensures SameKinds(s.objs, Moved(s, sd, sname, td, tname, id).objs)
  {
    DirectoryStays(s, (sd, sname), s.objs[id].isDir);
  }

  lemma MovedUnlinked(s: Fs, sd: Id, sname: string, td: Id, tname: string, id: Id)
    requires CanMove(s, sd, sname, td, tname, id) && ObjOk(s, sd) && ObjOk(s, td) && UnlinkedOk(s.objs, s.unlinked)
    ensures UnlinkedOk(Moved(s, sd, sname, td, tname, id).objs, s.unlinked)
  {
    DirectoryStays(s, (sd, sname), s.objs[id].isDir);
    Bounds(s, td);
  }

  lemma MovedInv(s: Fs, sd: Id, sname: string, td: Id, tname: string, id: Id)
    requires Inv(s) && CanMove(s, sd, sname, td, tname, id)
    ensures Inv(Moved(s, sd, sname, td, tname, id))
  {
    var s' := Moved(s, sd, sname, td, tname, id);
    assert ObjOk(s, sd) && ObjOk(s, td);
    MovedCounts(s, sd, sname, td, tname, id);
    MovedKinds(s, sd, sname, td, tname, id);
    EntriesAdd(s.objs, s'.objs, s.entries, (td, tname), id);
    MovedUnlinked(s, sd, sname, td, tname, id);
    Reassemble(s, s');
  }

  lemma MoveIs(s: Fs, sd: Id, sname: string, td: Id, tname: string, id: Id)
    requires sd in s.objs && td in s.objs && id in s.objs && id != td && id != sd
    ensures Move(s, sd, sname, td, tname, id) == Moved(s, sd, sname, td, tname, id)
  {
  }

  // ----- the tree -----

  predicate Live(s: Fs, d: Id) {
    d in s.objs && s.objs[d].isDir && !s.objs[d].xattr && !s.objs[d].unlinked && d != s.root
  }

  /** A directory whose parent is `d` is an entry of `d`. */
  lemma ChildListed(s: Fs, c: Id)
    requires Inv(s) && Live(s, c)
    ensures exists k :: k in s.entries && s.entries[k] == c && k.0 == s.objs[c].parent
  {
    assert ObjOk(s, c);
    var names := Names(s.entries, c);
    assert |names| == 1;
    var k :| k in names;
  }

  lemma EmptyIsChildless(s: Fs, d: Id)
    requires Inv(s) && Listed(s.entries, d) == {}
    ensures Childless(Parents(s), d)
  {
    forall c | c in Parents(s) ensures Parents(s)[c] != d {
      ChildListed(s, c);
      var k :| k in s.entries && s.entries[k] == c && k.0 == s.objs[c].parent;
      assert k in Listed(s.entries, k.0);
    }
  }

  lemma CreatedParents(s: Fs, d: Id, name: string, id: Id, isDir: bool)
    requires CanCreate(s, d, name, id, isDir)
    ensures Parents(Created(s, d, name, id, isDir)) == if isDir then Parents(s)[id := d] else Parents(s)
  {
  }

  lemma CreatedSound(s: Fs, d: Id, name: string, id: Id, isDir: bool)
    requires Sound(s) && CanCreate(s, d, name, id, isDir)
    ensures Sound(Created(s, d, name, id, isDir))
  {
    CreatedInv(s, d, name, id, isDir);
    CreatedParents(s, d, name, id, isDir);
    if isDir {
      TreeAfterAdd(Parents(s), s.root, id, d);
    }
  }

  lemma DroppedParents(s: Fs, d: Id, name: string, id: Id)
    requires CanDrop(s, d, name, id) && ObjOk(s, id)
    ensures Parents(Dropped(s, d, name, id)) == if s.objs[id].isDir then Parents(s) - {id} else Parents(s)
    ensures s.objs[id].isDir ==> Listed(s.entries, id) == {}
  {
    Bounds(s, id);
    assert (d, name) in TallyOf(s, id).names;
    CountedUnlink(s.objs[id], id == s.root, TallyOf(s, id),
                  TallyOf(s, id).(names := TallyOf(s, id).names - {(d, name)}), (d, name));
  }

  lemma DroppedSound(s: Fs, d: Id, name: string, id: Id)
    requires Sound(s) && CanDrop(s, d, name, id)
    ensures Sound(Dropped(s, d, name, id))
  {
    assert ObjOk(s, id);
    DroppedInv(s, d, name, id);
    DroppedParents(s, d, name, id);
    if s.objs[id].isDir {
      EmptyIsChildless(s, id);
      TreeAfterRemove(Parents(s), s.root, id);
    }
  }

  lemma MovedParents(s: Fs, sd: Id, sname: string, td: Id, tname: string, id: Id)
    requires CanMove(s, sd, sname, td, tname, id)
    ensures var parents := Parents(Moved(s, sd, sname, td, tname, id));
            parents == if Live(s, id) then Parents(s)[id := td] else Parents(s)
  {
  }

  lemma MovedSound(s: Fs, sd: Id, sname: string, td: Id, tname: string, id: Id)
    requires Sound(s) && CanMove(s, sd, sname, td, tname, id)
    requires s.objs[id].isDir ==> !AtOrAbove(Parents(s), s.root, id, td)
    ensures Sound(Moved(s, sd, sname, td, tname, id))
  {
    MovedInv(s, sd, sname, td, tname, id);
    MovedParents(s, sd, sname, td, tname, id);
    if Live(s, id) {
      assert td == s.root || Live(s, td);
      PathOf(Parents(s), s.root, td);
      var up :| IsPath(Parents(s), s.root, up) && up[0] == td;
      TreeAfterMove(Parents(s), s.root, id, up);
    }
  }

  /** The climb's verdict survives the removal of the target: an empty directory is on nobody's path. */
  lemma StillNotAbove(s: Fs, td: Id, tname: string, target: Id, id: Id)
    requires Sound(s) && CanDrop(s, td, tname, target) && !s.objs[td].unlinked && !s.objs[td].xattr
    requires !AtOrAbove(Parents(s), s.root, id, td)
    ensures !AtOrAbove(Parents(Dropped(s, td, tname, target)), s.root, id, td)
  {
    assert ObjOk(s, target);
    DroppedParents(s, td, tname, target);
    var parents, parents' := Parents(s), Parents(Dropped(s, td, tname, target));
    if s.objs[target].isDir {
      EmptyIsChildless(s, target);
      PathOf(parents, s.root, td);
      var up :| IsPath(parents, s.root, up) && up[0] == td;
      ChildlessNotOnPath(parents, s.root, up, target);
      PathElsewhere(parents, parents', s.root, up, target);
      forall p | IsPath(parents', s.root, p) && p[0] == td ensures id !in p {
        PathUnique(parents', s.root, p, up);
      }
    }
  }

  lemma DroppedCanMove(s: Fs, sd: Id, sname: string, td: Id, tname: string, id: Id, target: Id)
    requires Inv(s) && CanDrop(s, td, tname, target) && (sd, sname) in s.entries && s.entries[(sd, sname)] == id
    requires target != id && id != td && s.objs[td].xattr == s.objs[sd].xattr && !s.objs[td].unlinked
    ensures CanMove(Dropped(s, td, tname, target), sd, sname, td, tname, id)
  {
    var s' := Dropped(s, td, tname, target);
    assert EntryOk(s.objs, sd, s.entries[(sd, sname)]);
    assert ObjOk(s, td);
    DroppedKinds(s, td, tname, target);
    assert SameKind(s.objs[sd], s'.objs[sd]) && SameKind(s.objs[td], s'.objs[td]) && SameKind(s.objs[id], s'.objs[id]);
  }

  /** A directory cannot be moved into itself: the climb starts by comparing the two. */
  lemma NotIntoItself(s: Fs, sd: Id, sname: string, td: Id, id: Id)
    requires Sound(s) && (sd, sname) in s.entries && s.entries[(sd, sname)] == id
    requires IsDirectory(s, td) && !s.objs[td].unlinked && s.objs[td].xattr == s.objs[sd].xattr
    requires s.objs[id].isDir ==> !AtOrAbove(Parents(s), s.root, id, td)
    ensures id != td && EntryOk(s.objs, td, id)
  {
    assert EntryOk(s.objs, sd, s.entries[(sd, sname)]);
    if s.objs[id].isDir {
      assert td == s.root || Live(s, td);
      PathOf(Parents(s), s.root, td);
    }
  }

  lemma DoMoveSound(s: Fs, sd: Id, sname: string, td: Id, tname: string, id: Id, target: Option<Id>)
    requires Sound(s) && (sd, sname) in s.entries && s.entries[(sd, sname)] == id && sd in s.objs && id in s.objs
    requires IsDirectory(s, td) && !s.objs[td].unlinked && s.objs[td].xattr == s.objs[sd].xattr
    requires target == (if (td, tname) in s.entries then Some(s.entries[(td, tname)]) else None)
    requires DoMove(s, sd, sname, td, tname, id, target).Ok?
    ensures Sound(DoMove(s, sd, sname, td, tname, id, target).value)
  {
    NotIntoItself(s, sd, sname, td, id);
    assert EntryOk(s.objs, sd, s.entries[(sd, sname)]);
    if target.None? {
      MoveIs(s, sd, sname, td, tname, id);
      MovedSound(s, sd, sname, td, tname, id);
    } else {
      assert EntryOk(s.objs, td, s.entries[(td, tname)]);
      if id != target.value {
        ReplaceSound(s, sd, sname, td, tname, id, target.value);
      }
    }
  }

  lemma DroppedAbove(s: Fs, td: Id, tname: string, id: Id, target: Id)
    requires Sound(s) && CanDrop(s, td, tname, target) && EntryOk(s.objs, td, id) && id != target && !s.objs[td].unlinked
    requires s.objs[id].isDir ==> !AtOrAbove(Parents(s), s.root, id, td)
    ensures var s' := Dropped(s, td, tname, target);
            id in s'.objs && (s'.objs[id].isDir ==> !AtOrAbove(Parents(s'), s'.root, id, td))
  {
    DroppedIsDir(s, td, tname, target, id);
    if s.objs[id].isDir {
      StillNotAbove(s, td, tname, target, id);
    }
  }

  lemma DroppedIsDir(s: Fs, d: Id, name: string, id: Id, x: Id)
    requires CanDrop(s, d, name, id) && x in s.objs
    ensures var s' := Dropped(s, d, name, id); x in s'.objs && s'.objs[x].isDir == s.objs[x].isDir && s'.root == s.root
  {
  }

  /** The source takes the place of a target that could be removed. */
  lemma ReplacedSound(s: Fs, sd: Id, sname: string, td: Id, tname: string, id: Id, target: Id)
    requires Sound(s) && (sd, sname) in s.entries && s.entries[(sd, sname)] == id && EntryOk(s.objs, sd, id)
    requires CanDrop(s, td, tname, target) && EntryOk(s.objs, td, id)
    requires !s.objs[td].unlinked && s.objs[td].xattr == s.objs[sd].xattr && id != td && id != target
    requires s.objs[id].isDir ==> !AtOrAbove(Parents(s), s.root, id, td)
    ensures Sound(Moved(Dropped(s, td, tname, target), sd, sname, td, tname, id))
  {
    DroppedSound(s, td, tname, target);
    DroppedCanMove(s, sd, sname, td, tname, id, target);
    DroppedAbove(s, td, tname, id, target);
    MovedSound(Dropped(s, td, tname, target), sd, sname, td, tname, id);
  }

  lemma ReplaceSound(s: Fs, sd: Id, sname: string, td: Id, tname: string, id: Id, target: Id)
    requires Sound(s) && (sd, sname) in s.entries && s.entries[(sd, sname)] == id && EntryOk(s.objs, sd, id)
    requires (td, tname) in s.entries && s.entries[(td, tname)] == target && EntryOk(s.objs, td, id)
    requires EntryOk(s.objs, td, target)
    requires !s.objs[td].unlinked && s.objs[td].xattr == s.objs[sd].xattr && id != td && id != target
    requires s.objs[id].isDir ==> !AtOrAbove(Parents(s), s.root, id, td)
    requires LinkDestroy(s, td, tname, target, true).Ok?
    ensures var s' := LinkDestroy(s, td, tname, target, true).value;
            sd in s'.objs && td in s'.objs && id in s'.objs && Sound(Move(s', sd, sname, td, tname, id))
  {
    assert ObjOk(s, target);
    LinkDestroyIs(s, td, tname, target);
    ReplacedSound(s, sd, sname, td, tname, id, target);
    MoveIs(Dropped(s, td, tname, target), sd, sname, td, tname, id);
  }

  lemma RenameIs(s: Fs, sd: Id, sname: string, td: Id, tname: string)
    requires sd in s.objs && td in s.objs && DoRename(s, sd, sname, td, tname).Ok? && !(sd == td && sname == tname)
    ensures s.objs[td].xattr == s.objs[sd].xattr && !s.objs[td].unlinked
    ensures (sd, sname) in s.entries && s.entries[(sd, sname)] in s.objs
    ensures DoRename(s, sd, sname, td, tname) ==
            DoMove(s, sd, sname, td, tname, s.entries[(sd, sname)],
                   if (td, tname) in s.entries then Some(s.entries[(td, tname)]) else None)
  {
  }

  lemma RenameSound(s: Fs, sd: Id, sname: string, td: Id, tname: string)
    requires Sound(s) && IsDirectory(s, sd) && IsDirectory(s, td) && DoRename(s, sd, sname, td, tname).Ok?
    ensures Sound(DoRename(s, sd, sname, td, tname).value)
  {
    if !(sd == td && sname == tname) {
      RenameIs(s, sd, sname, td, tname);
      DoMoveSound(s, sd, sname, td, tname, s.entries[(sd, sname)],
                  if (td, tname) in s.entries then Some(s.entries[(td, tname)]) else None);
    }
  }

  // ----- the other operations -----

  lemma CreateSound(s: Fs, d: Id, name: string, id: Id, isDir: bool)
    requires Sound(s) && IsDirectory(s, d) && id !in s.objs && DoCreate(s, d, name, id, isDir).Ok?
    ensures Sound(DoCreate(s, d, name, id, isDir).value)
  {
    CreateIs(s, d, name, id, isDir);
    CreatedSound(s, d, name, id, isDir);
  }

  lemma LinkSound(s: Fs, src: Id, d: Id, name: string)
    requires Sound(s) && src in s.objs && IsDirectory(s, d) && DoLink(s, src, d, name).Ok?
    ensures Sound(DoLink(s, src, d, name).value)
  {
    LinkInv(s, src, d, name);
    LinkIs(s, src, d, name);
    LinkedParents(s, d, name, src);
  }

  lemma LinkedParents(s: Fs, d: Id, name: string, id: Id)
    requires CanLink(s, d, name, id)
    ensures Parents(LinkedIn(s, d, name, id)) == Parents(s)
  {
  }

  lemma DestroySound(s: Fs, d: Id, name: string, id: Id)
    requires Sound(s) && (d, name) in s.entries && s.entries[(d, name)] == id && d in s.objs && id in s.objs
    requires LinkDestroy(s, d, name, id, true).Ok?
    ensures Sound(LinkDestroy(s, d, name, id, true).value)
  {
    LinkDestroyInv(s, d, name, id);
    assert ObjOk(s, id);
    LinkDestroyIs(s, d, name, id);
    DroppedSound(s, d, name, id);
  }

  lemma RmdirSound(s: Fs, d: Id, name: string)
    requires Sound(s) && IsDirectory(s, d) && DoRmdir(s, d, name).Ok?
    ensures Sound(DoRmdir(s, d, name).value)
  {
    DestroySound(s, d, name, s.entries[(d, name)]);
  }

  lemma DeletedSound(s: Fs, id: Id)
    requires Sound(s) && CanDelete(s, id)
    ensures Sound(DoRmnode(s, id))
  {
    assert ObjOk(s, id) && OwnerOk(s.objs, id);
    DeletedInv(s, id);
    DeletedParents(s, id);
  }

  lemma DeletedParents(s: Fs, id: Id)
    requires CanDelete(s, id) && s.objs[id].unlinked && OwnerOk(s.objs, id)
    ensures Parents(DoRmnode(s, id)) == Parents(s)
  {
  }

  lemma RemoveSound(s: Fs, d: Id, name: string, now: bool)
    requires Sound(s) && IsDirectory(s, d) && DoRemove(s, d, name, now).Ok?
    ensures Sound(DoRemove(s, d, name, now).value)
  {
    var id := s.entries[(d, name)];
    assert EntryOk(s.objs, d, s.entries[(d, name)]);
    RemoveNowIs(s, d, name, id);
    DroppedSound(s, d, name, id);
    var s' := Dropped(s, d, name, id);
    if now && Unlink(s.objs[id]).unlinked {
      CanRmnode(s', id);
      DeletedSound(s', id);
    }
  }

  lemma MakeXattrSound(s: Fs, owner: Id, id: Id)
    requires Sound(s) && Allowed(s, MakeXattrDir(owner, id))
    ensures Sound(DoMakeXattrDir(s, owner, id))
  {
    MakeXattrInv(s, owner, id);
    XattrParents(s, owner, id);
  }

  lemma XattrParents(s: Fs, owner: Id, id: Id)
    requires owner in s.objs && id !in s.objs
    ensures Parents(DoMakeXattrDir(s, owner, id)) == Parents(s)
  {
  }

  /** Every operation keeps the counts right and the directories a tree. */
  lemma StepSound(s: Fs, op: Op)
    requires Sound(s) && Allowed(s, op)
    ensures Sound(Next(s, op))
  {
    if Perform(s, op).Ok? {
      match op
      case Create(d, name, id) => CreateSound(s, d, name, id, false);
      case Mkdir(d, name, id) => CreateSound(s, d, name, id, true);
      case MakeXattrDir(owner, id) => MakeXattrSound(s, owner, id);
      case Link(src, d, name) => LinkSound(s, src, d, name);
      case Remove(d, name, now) => RemoveSound(s, d, name, now);
      case Rmdir(d, name) => RmdirSound(s, d, name);
      case Rename(sd, sname, td, tname) => RenameSound(s, sd, sname, td, tname);
      case Purge(d, name) => DestroySound(s, d, name, s.entries[(d, name)]);
      case Rmnode(id) =>
        CanRmnode(s, id);
        DeletedSound(s, id);
    }
  }

  lemma {:induction false} HistorySound(s: Fs, ops: seq<Op>)
    requires Sound(s) && IsHistory(s, ops)
    ensures Sound(Final(s, ops))
    decreases |ops|
  {
    if ops != [] {
      StepSound(s, ops[0]);
      HistorySound(Next(s, ops[0]), ops[1..]);
    }
  }

  lemma FreshSound(root: Id)
    ensures Sound(NamespaceModel.Fresh(root))
  {
    var s := NamespaceModel.Fresh(root);
    assert TallyOf(s, root) == Tally({}, 0, 0);
  }

  // ----- what it means -----

  /** An object is reachable by name, is the attribute directory of an allocated object, or waits for deletion. */
  ghost predicate Accounted(s: Fs, id: Id) {
    || id == s.root || Names(s.entries, id) != {} || id in s.unlinked
    || exists owner :: owner in s.objs && s.objs[owner].xattrDir == Some(id)
  }

  lemma NothingLost(s: Fs, id: Id)
    requires Inv(s) && id in s.objs
    ensures Accounted(s, id)
  {
    assert ObjOk(s, id) && OwnedOk(s.objs, id);
  }

  /** The count of an object that still has a name is never found too small. */
  lemma NeverPanics(s: Fs, k: Key)
    requires Inv(s) && k in s.entries
    ensures s.entries[k] in s.objs && s.objs[s.entries[k]].links > Bit(s.objs[s.entries[k]].isDir)
  {
    assert EntryOk(s.objs, k.0, s.entries[k]);
    var id := s.entries[k];
    assert ObjOk(s, id);
    assert k in Names(s.entries, id);
    Bounds(s, id);
  }

  /** Over every history of a new file system. */
  lemma {:induction false} HistoryGuarantees(root: Id, ops: seq<Op>)
    requires IsHistory(NamespaceModel.Fresh(root), ops)
    ensures var s := Final(NamespaceModel.Fresh(root), ops);
            && (forall id :: id in s.objs && !s.objs[id].isDir ==> s.objs[id].links == |Names(s.entries, id)|)
            && (forall d :: d in s.objs && s.objs[d].isDir ==> s.objs[d].size == 2 + |Listed(s.entries, d)|)
            && (forall d :: d in s.objs && s.objs[d].isDir && s.objs[d].links != 0 ==>
                  s.objs[d].links == 2 + |Subdirs(s.entries, Dirs(s.objs), d)|)
            && (forall id :: id in s.objs ==> Accounted(s, id))
            && (forall id :: id in s.unlinked <==> id in s.objs && s.objs[id].links == 0)
            && (forall k :: k in s.entries ==> k.0 in s.objs && s.entries[k] in s.objs)
            && IsTree(Parents(s), s.root)
  {
    FreshSound(root);
    HistorySound(NamespaceModel.Fresh(root), ops);
    var s := Final(NamespaceModel.Fresh(root), ops);
    forall id | id in s.objs
      ensures Accounted(s, id) && (!s.objs[id].isDir ==> s.objs[id].links == |Names(s.entries, id)|)
      ensures s.objs[id].isDir ==> s.objs[id].size == 2 + |Listed(s.entries, id)|
      ensures s.objs[id].isDir && s.objs[id].links != 0 ==>
                s.objs[id].links == 2 + |Subdirs(s.entries, Dirs(s.objs), id)|
    {
      NothingLost(s, id);
      assert ObjOk(s, id);
    }
    forall k | k in s.entries ensures k.0 in s.objs && s.entries[k] in s.objs {
      assert EntryOk(s.objs, k.0, s.entries[k]);
    }
  }

  // ----- draining the unlinked set -----

  /** For every object in the unlinked set the next deletion step can be taken. */
  lemma CanDrain(s: Fs, id: Id) returns (op: Op)
    requires Sound(s) && id in s.unlinked
    ensures (op.Purge? || op.Rmnode?) && Allowed(s, op) && Perform(s, op).Ok?
    ensures |Next(s, op).entries| + |Next(s, op).objs| < |s.entries| + |s.objs|
  {
    if s.objs[id].isDir && s.objs[id].xattr && exists k :: k in s.entries && k.0 == id {
      var k :| k in s.entries && k.0 == id;
      assert EntryOk(s.objs, k.0, s.entries[k]);
      op := Purge(k.0, k.1);
      LinkDestroyInv(s, k.0, k.1, s.entries[k]);
      PurgeSmaller(s, k.0, k.1);
    } else {
      op := Rmnode(id);
      RmnodeSmaller(s, id);
    }
  }

  lemma PurgeSmaller(s: Fs, d: Id, name: string)
    requires (d, name) in s.entries && EntryOk(s.objs, d, s.entries[(d, name)]) && !s.objs[s.entries[(d, name)]].isDir
    ensures DoPurge(s, d, name).Ok?
    ensures var s' := DoPurge(s, d, name).value; |s'.entries| == |s.entries| - 1 && |s'.objs| == |s.objs|
  {
    var s' := DoPurge(s, d, name).value;
    assert s'.objs.Keys == s.objs.Keys;
    SameSize(s.objs, s'.objs);
    OneLess(s.entries, (d, name));
  }

  lemma RmnodeSmaller(s: Fs, id: Id)
    requires id in s.objs
    ensures DoRmnode(s, id).entries == s.entries && |DoRmnode(s, id).objs| == |s.objs| - 1
  {
    var s' := Orphan(s, s.objs[id].xattrDir);
    assert s'.objs.Keys == s.objs.Keys;
    SameSize(s.objs, s'.objs);
    OneLess(s'.objs, id);
  }

  lemma SameSize<K, V>(m: map<K, V>, n: map<K, V>)
    requires m.Keys == n.Keys
    ensures |m| == |n|
  {
    assert |m| == |m.Keys| && |n| == |n.Keys|;
  }

  lemma OneLess<K, V>(m: map<K, V>, k: K)
    requires k in m
    ensures |m - {k}| == |m| - 1
  {
    assert (m - {k}).Keys == m.Keys - {k};
    assert |m| == |m.Keys| && |m - {k}| == |(m - {k}).Keys|;
  }

  predicate OnlyDeletes(ops: seq<Op>) {
    ops == [] || ((ops[0].Purge? || ops[0].Rmnode?) && OnlyDeletes(ops[1..]))
  }

  lemma {:induction false} HistoryCons(s: Fs, op: Op, rest: seq<Op>, s': Fs)
    requires Allowed(s, op) && s' == Next(s, op) && IsHistory(s', rest)
    ensures IsHistory(s, [op] + rest) && Final(s, [op] + rest) == Final(s', rest)
  {
    assert ([op] + rest)[1..] == rest;
  }

  /** Deletion steps alone empty the unlinked set: nothing that lost its links stays for ever. */
  lemma {:induction false} Drains(s: Fs) returns (ops: seq<Op>)
    requires Sound(s)
    ensures IsHistory(s, ops) && Final(s, ops).unlinked == {} && OnlyDeletes(ops)
    decreases |s.entries| + |s.objs|
  {
    if s.unlinked == {} {
      ops := [];
    } else {
      var id :| id in s.unlinked;
      var op := CanDrain(s, id);
      StepSound(s, op);
      var s' := Next(s, op);
      var rest := Drains(s');
      HistoryCons(s, op, rest, s');
      ops := [op] + rest;
      assert ops[1..] == rest;
    }
  }
}
