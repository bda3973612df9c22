/**
 Facts about parent maps: paths to the root are unique and cannot repeat, and survive moving a directory to a place
 that is not below it.
 */
module RenameTree {
  import opened RenameModel

  lemma {:induction false} PathUnique(parent: map<Id, Id>, root: Id, p: seq<Id>, q: seq<Id>)
    requires IsPath(parent, root, p) && IsPath(parent, root, q) && p[0] == q[0]
    ensures p == q
  {
    if |p| > 1 && |q| > 1 {
      PathUnique(parent, root, p[1..], q[1..]);
      assert p == [p[0]] + p[1..] && q == [q[0]] + q[1..];
    }
  }

  lemma {:induction false} PathSuffix(parent: map<Id, Id>, root: Id, p: seq<Id>, i: nat)
    requires IsPath(parent, root, p) && i < |p|
    ensures IsPath(parent, root, p[i..])
  {
    if i > 0 {
      PathSuffix(parent, root, p[1..], i - 1);
      assert p[1..][i - 1..] == p[i..];
    }
  }

  /** No directory is above itself: it does not occur on the path of its parent. */
  lemma {:induction false} NotAboveItself(parent: map<Id, Id>, root: Id, d: Id, p: seq<Id>)
    requires d in parent && d != root && IsPath(parent, root, p) && p[0] == parent[d]
    ensures d !in p
  {
    if d in p {
      var i :| 0 <= i < |p| && p[i] == d;
      PathSuffix(parent, root, p, i);
      var q := [d] + p;
      assert q[1..] == p;
      PathUnique(parent, root, q, p[i..]);
      assert false;
    }
  }

  /** A path that avoids `d` is a path whatever the parent of `d` is. */
  lemma {:induction false} PathElsewhere(parent: map<Id, Id>, parent': map<Id, Id>, root: Id, p: seq<Id>, d: Id)
    requires IsPath(parent, root, p) && d !in p
    requires forall x :: x in parent && x != d ==> x in parent' && parent'[x] == parent[x]
    ensures IsPath(parent', root, p)
  {
    if |p| > 1 {
      PathElsewhere(parent, parent', root, p[1..], d);
    }
  }

  /** Paths after directory `d` has moved below a directory whose path avoids it. */
  lemma {:induction false} PathAfterMove(parent: map<Id, Id>, root: Id, p: seq<Id>, d: Id, up: seq<Id>)
    requires IsPath(parent, root, p) && d != root
    requires IsPath(parent, root, up) && d !in up
    ensures HasPath(parent[d := up[0]], root, p[0])
  {
    var parent' := parent[d := up[0]];
    PathElsewhere(parent, parent', root, up, d);
    if p[0] == d {
      var q := [d] + up;
      assert q[1..] == up;
      assert IsPath(parent', root, q);
    } else if |p| > 1 {
      PathAfterMove(parent, root, p[1..], d, up);
      var q :| IsPath(parent', root, q) && q[0] == p[1];
      var q' := [p[0]] + q;
      assert q'[1..] == q;
      assert IsPath(parent', root, q');
    } else {
      assert IsPath(parent', root, p);
    }
  }

  lemma TreeAfterMove(parent: map<Id, Id>, root: Id, d: Id, up: seq<Id>)
    requires IsTree(parent, root) && d in parent
    requires IsPath(parent, root, up) && d !in up
    ensures IsTree(parent[d := up[0]], root)
  {
    var parent' := parent[d := up[0]];
    forall x | x in parent' ensures HasPath(parent', root, x) {
      var p :| IsPath(parent, root, p) && p[0] == x;
      PathAfterMove(parent, root, p, d, up);
    }
  }

  lemma {:induction false} ChildlessNotOnPath(parent: map<Id, Id>, root: Id, p: seq<Id>, d: Id)
    requires IsPath(parent, root, p) && Childless(parent, d) && p[0] != d
    ensures d !in p
  {
    if |p| > 1 {
      ChildlessNotOnPath(parent, root, p[1..], d);
      assert p == [p[0]] + p[1..];
    }
  }

  lemma TreeAfterRemove(parent: map<Id, Id>, root: Id, d: Id)
    requires IsTree(parent, root) && Childless(parent, d)
    ensures IsTree(parent - {d}, root)
  {
    forall x | x in parent - {d} ensures HasPath(parent - {d}, root, x) {
      var p :| IsPath(parent, root, p) && p[0] == x;
      ChildlessNotOnPath(parent, root, p, d);
      PathElsewhere(parent, parent - {d}, root, p, d);
    }
  }

  lemma TreeAfterAdd(parent: map<Id, Id>, root: Id, d: Id, up: Id)
    requires IsTree(parent, root) && d !in parent && d != root && (up == root || up in parent)
    ensures IsTree(parent[d := up], root)
  {
    var parent' := parent[d := up];
    PathOf(parent, root, up);
    var u :| IsPath(parent, root, u) && u[0] == up;
    forall x | x in parent' ensures HasPath(parent', root, x) {
      if x == d {
        NewNotOnPath(parent, root, u, d);
        PathElsewhere(parent, parent', root, u, d);
        var q := [d] + u;
        assert q[1..] == u;
        assert IsPath(parent', root, q);
      } else {
        var p :| IsPath(parent, root, p) && p[0] == x;
        NewNotOnPath(parent, root, p, d);
        PathElsewhere(parent, parent', root, p, d);
      }
    }
  }

  lemma {:induction false} NewNotOnPath(parent: map<Id, Id>, root: Id, p: seq<Id>, d: Id)
    requires IsPath(parent, root, p) && d !in parent && d != root
    ensures d !in p
  {
    if |p| > 1 {
      NewNotOnPath(parent, root, p[1..], d);
      assert p == [p[0]] + p[1..];
    }
  }

  lemma PathOf(parent: map<Id, Id>, root: Id, d: Id)
    requires IsTree(parent, root) && (d == root || d in parent)
    ensures HasPath(parent, root, d)
  {
    if d == root {
      assert IsPath(parent, root, [root]);
    }
  }
}
