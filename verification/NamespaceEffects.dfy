/** What each namespace call does, in terms of entries, rows, edges and counts: when
    it succeeds, with which error it fails, and the whole of what it changes. */
module NamespaceEffects {

  import opened Common
  import opened Namespace
  import opened NamespaceTheorems

  // ---- when a call succeeds ----

  /** A file name of 1 to 255 characters that is no dot name and has no separator. */
  predicate Component(n: Name) {
    1 <= |n| <= 255 && n != "." && n != ".." && forall i :: 0 <= i < |n| ==> n[i] != '/' && n[i] != '\0'
  }

  predicate Names(op: Op, n: Name) {
    match op
    case Create(_, name, _, _) => n == name
    case Link(_, name, _) => n == name
    case Unlink(_, name) => n == name
    case Rmdir(_, name) => n == name
    case Rename(from, to) => n == from.name || n == to.name
  }

  /** A call is refused for its name exactly when one of its names is no component. */
  lemma InvalidNameExactly(s: State, c: Call)
    ensures Perform(s, c) == Failed(InvalidName) <==> exists n :: Names(c.op, n) && !Component(n)
  {
    forall n ensures ValidName(n) <==> Component(n) {
    }
    match c.op
    case Create(_, name, _, _) => assert Names(c.op, name);
    case Link(_, name, _) => assert Names(c.op, name);
    case Unlink(_, name) => assert Names(c.op, name);
    case Rmdir(_, name) => assert Names(c.op, name);
    case Rename(from, to) => assert Names(c.op, from.name) && Names(c.op, to.name);
  }

  predicate IsFile(s: State, h: Handle) {
    h in s.kinds && s.kinds[h] == NonDirectory
  }

  lemma CreateSucceeds(s: State, f: Faults, dir: Handle, name: Name, kind: Kind, newId: Handle)
    ensures CreateOutcome(s, f, dir, name, kind, newId).Done? <==>
            Component(name) && IsDir(s, dir) && !f.denied && Entry(dir, name) !in s.children
  {
  }

  lemma LinkSucceeds(s: State, f: Faults, dir: Handle, name: Name, target: Handle)
    ensures LinkOutcome(s, f, dir, name, target).Done? <==>
            && Component(name) && IsDir(s, dir) && !f.denied && Entry(dir, name) !in s.children
            && IsFile(s, target)
  {
  }

  lemma UnlinkSucceeds(s: State, f: Faults, dir: Handle, name: Name)
    ensures UnlinkOutcome(s, f, dir, name).Done? <==>
            && Component(name) && IsDir(s, dir) && !f.denied
            && Entry(dir, name) in s.children && IsFile(s, s.children[Entry(dir, name)])
  {
  }

  lemma RmdirSucceeds(s: State, f: Faults, dir: Handle, name: Name)
    ensures RmdirOutcome(s, f, dir, name).Done? <==>
            && Component(name) && IsDir(s, dir) && !f.denied && Entry(dir, name) in s.children
            && var v := s.children[Entry(dir, name)];
            IsDir(s, v) && v != dir && (f.listFails || forall e :: e in s.children ==> e.dir != v)
  {
  }

  /** What may stand at the destination of a rename of a node of kind `kind`. */
  ghost predicate MayReplace(s: State, f: Faults, kind: Kind, from: Entry, to: Entry) {
    to in s.children ==>
      var dst := s.children[to];
      if kind == Directory
      then IsDir(s, dst) && (f.listFails || forall e :: e in s.children ==> e.dir != dst) && dst !in {from.dir, to.dir}
      else IsFile(s, dst) && !f.linkReadFails
  }

  lemma RenameSucceeds(s: State, f: Faults, from: Entry, to: Entry)
    ensures RenameOutcome(s, f, from, to).Done? <==>
            && Component(from.name) && Component(to.name)
            && (from == to ||
                (&& IsDir(s, from.dir) && IsDir(s, to.dir) && !f.denied
                 && from in s.children && s.children[from] in s.kinds
                 && MayReplace(s, f, s.kinds[s.children[from]], from, to)
                 && (f.linkReadFails && IsDir(s, s.children[from]) ==> from.dir == to.dir)))
  {
  }

  /** `v` is the directory the call is to remove or replace. */
  predicate Deletes(s: State, op: Op, v: Handle) {
    match op
    case Rmdir(dir, name) => Entry(dir, name) in s.children && s.children[Entry(dir, name)] == v
    case Rename(_, to) => to in s.children && s.children[to] == v
    case _ => false
  }

  /** What each error says about the state the call found. */
  lemma ErrorMeans(s: State, c: Call)
    requires Perform(s, c).Failed?
    ensures match Perform(s, c).error
            case AlreadyExists =>
              (c.op.Create? || c.op.Link?) && Entry(c.op.dir, c.op.name) in s.children
            case NotEmpty =>
              !c.faults.listFails && exists e :: e in s.children && Deletes(s, c.op, e.dir)
            case AccessDenied => c.faults.denied
            case IsDirectory => !c.op.Create? && !c.op.Rmdir?
            case StoreFailure => c.op.Rmdir? || c.op.Rename?
            case _ => true
  {
    match c.op
    case Rmdir(dir, name) =>
      if Perform(s, c).error == NotEmpty {
        var e :| e in s.children && e.dir == s.children[Entry(dir, name)];
        assert Deletes(s, c.op, e.dir);
      }
    case Rename(from, to) =>
      if Perform(s, c).error == NotEmpty {
        var e :| e in s.children && e.dir == s.children[to];
        assert Deletes(s, c.op, e.dir);
      }
    case _ =>
  }

  // ---- what a successful call changes ----

  /** Create: one entry, one row, one edge; the new row counts its own links, and a
      new directory adds one to its parent unless that count could not be read. */
  lemma CreateEffect(s: State, c: Call)
    requires c.op.Create? && Succeeds(s, c) && FreshHandle(s, c)
    ensures var t := Next(s, c);
            var e := Entry(c.op.dir, c.op.name);
            && e !in s.children && t.children == s.children[e := c.op.newId]
            && t.kinds == s.kinds[c.op.newId := c.op.kind] && t.parents == s.parents[c.op.newId := c.op.dir]
            && t.root == s.root
            && forall h :: LinkCount(t, h) ==
                 if h == c.op.newId then (if c.op.kind == Directory then 2 else 1)
                 else LinkCount(s, h)
                      + if h == c.op.dir && c.op.kind == Directory && !c.faults.linkReadFails then 1 else 0
  {
  }

  /** Link: the name resolves to the target, every other entry stays, and the target
      counts one more, or one where its count could not be read. */
  lemma LinkEffect(s: State, c: Call)
    requires c.op.Link? && Succeeds(s, c)
    ensures var t := Next(s, c);
            var e := Entry(c.op.dir, c.op.name);
            && e !in s.children && t.children == s.children[e := c.op.target]
            && t.kinds == s.kinds && t.parents == s.parents && t.root == s.root
            && forall h :: LinkCount(t, h) ==
                 if h != c.op.target then LinkCount(s, h)
                 else if c.faults.linkReadFails then 1 else LinkCount(s, h) + 1
  {
  }

  /** Unlink: exactly the named entry goes, the row stays, and its count drops by one,
      or to zero where it could not be read. */
  lemma UnlinkEffect(s: State, c: Call)
    requires c.op.Unlink? && Succeeds(s, c)
    ensures var t := Next(s, c);
            var e := Entry(c.op.dir, c.op.name);
            && e in s.children && t.children == s.children - {e}
            && t.kinds == s.kinds && t.parents == s.parents && t.root == s.root
            && forall h :: LinkCount(t, h) ==
                 if h != s.children[e] then LinkCount(s, h)
                 else if c.faults.linkReadFails || LinkCount(s, h) == 0 then 0 else LinkCount(s, h) - 1
  {
  }

  /** Rmdir: the entry goes, the directory's row, edge and count go, and whatever
      entries a failed listing hid; the parent counts one less. */
  lemma RmdirEffect(s: State, c: Call)
    requires c.op.Rmdir? && Succeeds(s, c)
    ensures var t := Next(s, c);
            var e := Entry(c.op.dir, c.op.name);
            && e in s.children && var v := s.children[e];
            && t.kinds == s.kinds - {v} && t.parents == s.parents - {v} && t.root == s.root
            && (forall x :: x in t.children <==> x in s.children && x != e && x.dir != v)
            && (forall x :: x in t.children ==> t.children[x] == s.children[x])
            && forall h :: LinkCount(t, h) ==
                 if h == v then 0
                 else if h == c.op.dir && !c.faults.linkReadFails && LinkCount(s, h) > 0 then LinkCount(s, h) - 1
                 else LinkCount(s, h)
  {
  }

  /** Rename to itself changes nothing. */
  lemma RenameToItself(s: State, c: Call)
    requires c.op.Rename? && c.op.from == c.op.to
    ensures Next(s, c) == s
  {
  }

  /** Rename: the target name resolves to the moved node, the source name is gone, and
      every other entry stays, but for those of a replaced directory. */
  lemma RenameEffect(s: State, c: Call)
    requires c.op.Rename? && c.op.from != c.op.to && Succeeds(s, c)
    ensures var t := Next(s, c);
            var from, to := c.op.from, c.op.to;
            && from in s.children && to in t.children && t.children[to] == s.children[from] && from !in t.children
            && (forall x :: x in t.children <==>
                  x == to || (x in s.children && x != from && (Replaces(s, to) ==> x.dir != s.children[to])))
            && (forall x :: x in t.children && x != to ==> t.children[x] == s.children[x])
  {
    RenameReachesTransaction(s, map[], c);
  }

  /** Rename drops no row but a replaced directory's, and rewrites one parent edge: that
      of a node that changes directories. */
  lemma RenameEdges(s: State, c: Call)
    requires c.op.Rename? && c.op.from != c.op.to && Succeeds(s, c)
    ensures var t := Next(s, c);
            var from, to := c.op.from, c.op.to;
            var gone := if Replaces(s, to) then {s.children[to]} else {};
            && from in s.children && var src := s.children[from];
            && t.root == s.root && t.kinds == s.kinds - gone
            && (forall h :: h in t.parents <==>
                  (h in s.parents && h !in gone) || (h == src && from.dir != to.dir))
            && (forall h :: h in t.parents ==>
                  t.parents[h] == if h == src && from.dir != to.dir then to.dir else s.parents[h])
  {
    RenameReachesTransaction(s, map[], c);
  }

  /** A call that does not succeed changes nothing. */
  lemma FailureChangesNothing(s: State, c: Call)
    requires !Succeeds(s, c)
    ensures Next(s, c) == s
  {
  }
}
