/** The namespace stays a tree: every directory reaches the root along parent
    edges, and a rename keeps it so exactly when it does not move a directory
    into its own subtree.  The code has no check for that. */
module NamespaceTree {
  import opened Namespace
  import opened NamespaceTheorems

  /** n parent edges lead from h to top. */
  ghost predicate Climbs(p: map<Handle, Handle>, h: Handle, top: Handle, n: nat)
    decreases n
  {
    if n == 0 then h == top else h in p && Climbs(p, p[h], top, n - 1)
  }

  ghost predicate Below(s: State, h: Handle, top: Handle) {
    exists n: nat :: Climbs(s.parents, h, top, n)
  }

  ghost predicate Connected(s: State) {
    forall d :: IsDir(s, d) ==> Below(s, d, s.root)
  }

  ghost predicate Tree(s: State) {
    WellFormed(s) && Connected(s)
  }

  /** The directory above a non-root directory is the one holding its entry. */
  lemma ParentIsDir(s: State, d: Handle) returns (e: Entry)
    requires WellFormed(s) && IsDir(s, d) && d != s.root
    ensures e in s.children && s.children[e] == d
    ensures d in s.parents && s.parents[d] == e.dir && IsDir(s, e.dir)
  {
    assert HasEntry(s, d);
    e :| e in s.children && s.children[e] == d;
  }

  /** A climb inside a set whose edges did not change is still a climb. */
  lemma {:induction false} ClimbKept(s: State, p: map<Handle, Handle>, keep: set<Handle>, d: Handle, n: nat)
    requires d in keep && Climbs(s.parents, d, s.root, n) && s.root !in s.parents
    requires forall h :: h in keep && h in s.parents ==> h in p && p[h] == s.parents[h] && p[h] in keep
    ensures Climbs(p, d, s.root, n)
    decreases n
  {
    if n > 0 {
      ClimbKept(s, p, keep, s.parents[d], n - 1);
    }
  }

  lemma ConnectedKept(s: State, t: State, keep: set<Handle>, d: Handle)
    requires WellFormed(s) && Connected(s) && IsDir(s, d) && d in keep && t.root == s.root
    requires forall h :: h in keep && h in s.parents ==>
               h in t.parents && t.parents[h] == s.parents[h] && t.parents[h] in keep
    ensures Below(t, d, t.root)
  {
    assert Below(s, d, s.root);
    var n: nat :| Climbs(s.parents, d, s.root, n);
    ClimbKept(s, t.parents, keep, d, n);
  }

  ghost function Dirs(s: State): set<Handle> {
    set h | h in s.kinds && s.kinds[h] == Directory
  }

  lemma CreateConnected(s: State, f: Faults, dir: Handle, name: Name, kind: Kind, newId: Handle)
    requires Tree(s) && newId !in s.kinds && IsDir(s, dir)
    ensures Connected(CreateState(s, f, dir, name, kind, newId))
  {
    var t := CreateState(s, f, dir, name, kind, newId);
    forall h | h in Dirs(s) && h in s.parents
      ensures h in t.parents && t.parents[h] == s.parents[h] && t.parents[h] in Dirs(s)
    {
      var e := ParentIsDir(s, h);
    }
    forall d | IsDir(t, d) ensures Below(t, d, t.root) {
      if d == newId {
        ConnectedKept(s, t, Dirs(s), dir);
        var n: nat :| Climbs(t.parents, dir, t.root, n);
        assert Climbs(t.parents, d, t.root, n + 1);
      } else {
        ConnectedKept(s, t, Dirs(s), d);
      }
    }
  }

  /** No directory's parent edge names an empty directory. */
  lemma NotAParent(s: State, v: Handle, h: Handle)
    requires WellFormed(s) && IsEmptyDir(s, v) && IsDir(s, h) && h in s.parents
    ensures s.parents[h] != v && IsDir(s, s.parents[h])
  {
    var e := ParentIsDir(s, h);
  }

  lemma RmdirConnected(s: State, f: Faults, dir: Handle, name: Name)
    requires Tree(s) && Entry(dir, name) in s.children && IsEmptyDir(s, s.children[Entry(dir, name)])
    ensures Connected(RmdirState(s, f, dir, name))
  {
    var t := RmdirState(s, f, dir, name);
    var v := s.children[Entry(dir, name)];
    var keep := Dirs(s) - {v};
    forall h | h in keep && h in s.parents
      ensures h in t.parents && t.parents[h] == s.parents[h] && t.parents[h] in keep
    {
      NotAParent(s, v, h);
    }
    forall d | IsDir(t, d) ensures Below(t, d, t.root) {
      ConnectedKept(s, t, keep, d);
    }
  }

  // ---- rename ----

  lemma BelowStep(s: State, h: Handle, top: Handle)
    requires h in s.parents && Below(s, s.parents[h], top)
    ensures Below(s, h, top)
  {
    var n: nat :| Climbs(s.parents, s.parents[h], top, n);
    assert Climbs(s.parents, h, top, n + 1);
  }

  /** The directories that do not sit under the moved one. */
  ghost function Elsewhere(s: State, src: Handle, to: Entry): set<Handle> {
    set h | h in s.kinds && s.kinds[h] == Directory && !Below(s, h, src) && !(to in s.children && s.children[to] == h)
  }

  lemma ElsewhereKept(s: State, from: Entry, to: Entry, h: Handle)
    requires WellFormed(s) && CanRename(s, from, to) && TargetEmpty(s, to)
    requires h in Elsewhere(s, s.children[from], to) && h in s.parents
    ensures var t := RenameState(s, from, to);
            && h in t.parents && t.parents[h] == s.parents[h]
            && t.parents[h] in Elsewhere(s, s.children[from], to)
  {
    RenameRows(s, from, to);
    var src := s.children[from];
    var e := ParentIsDir(s, h);
    if Below(s, s.parents[h], src) {
      BelowStep(s, h, src);
    }
    assert Climbs(s.parents, src, src, 0);
  }

  /** A directory under the moved one climbs to it as before, then on. */
  lemma {:induction false} MovedSubtreeConnected(s: State, from: Entry, to: Entry, d: Handle, n: nat)
    requires WellFormed(s) && CanRename(s, from, to) && TargetEmpty(s, to) && from.dir != to.dir
    requires IsDir(s, d) && IsDir(s, s.children[from]) && (to in s.children ==> d != s.children[to])
    requires Climbs(s.parents, d, s.children[from], n)
    requires Below(RenameState(s, from, to), to.dir, s.root)
    ensures Below(RenameState(s, from, to), d, s.root)
    decreases n
  {
    var t := RenameState(s, from, to);
    RenameEdge(s, from, to, d);
    if d != s.children[from] {
      var e := ParentIsDir(s, d);
      MovedSubtreeConnected(s, from, to, s.parents[d], n - 1);
    }
    BelowStep(t, d, s.root);
  }

  /** The parent edge of a surviving directory after a rename to another parent. */
  lemma RenameEdge(s: State, from: Entry, to: Entry, d: Handle)
    requires CanRename(s, from, to) && from.dir != to.dir && (to in s.children ==> d != s.children[to])
    ensures var p := RenameState(s, from, to).parents;
            && (d == s.children[from] ==> d in p && p[d] == to.dir)
            && (d != s.children[from] && d in s.parents ==> d in p && p[d] == s.parents[d])
  {
    RenameRows(s, from, to);
  }

  lemma RenameConnected(s: State, from: Entry, to: Entry)
    requires Tree(s) && CanRename(s, from, to) && TargetEmpty(s, to) && IsDir(s, s.children[from])
    requires from.dir != to.dir && !Below(s, to.dir, s.children[from])
    ensures Connected(RenameState(s, from, to))
  {
    var t := RenameState(s, from, to);
    var src := s.children[from];
    var keep := Elsewhere(s, src, to);
    RenameRows(s, from, to);
    forall h | h in keep && h in s.parents
      ensures h in t.parents && t.parents[h] == s.parents[h] && t.parents[h] in keep
    {
      ElsewhereKept(s, from, to, h);
    }
    ConnectedKept(s, t, keep, to.dir);
    forall d | IsDir(t, d) ensures Below(t, d, t.root) {
      if Below(s, d, src) {
        var n: nat :| Climbs(s.parents, d, src, n);
        MovedSubtreeConnected(s, from, to, d, n);
      } else {
        ConnectedKept(s, t, keep, d);
      }
    }
  }

  /** Parent edges of directories outside the renamed one do not change. */
  lemma RenameSameEdges(s: State, from: Entry, to: Entry)
    requires Tree(s) && CanRename(s, from, to) && TargetEmpty(s, to)
    requires from.dir == to.dir || !IsDir(s, s.children[from])
    ensures Connected(RenameState(s, from, to))
  {
    var t := RenameState(s, from, to);
    RenameRows(s, from, to);
    var keep := set h | h in s.kinds && s.kinds[h] == Directory && !(to in s.children && s.children[to] == h);
    forall h | h in keep && h in s.parents
      ensures h in t.parents && t.parents[h] == s.parents[h] && t.parents[h] in keep
    {
      var e := ParentIsDir(s, h);
    }
    forall d | IsDir(t, d) ensures Below(t, d, t.root) {
      ConnectedKept(s, t, keep, d);
    }
  }

  /** After a directory moved under itself, its old subtree only climbs within
      itself and never reaches the root. */
  lemma {:induction false} CycleNeverReachesRoot(s: State, from: Entry, to: Entry, d: Handle, n: nat)
    requires WellFormed(s) && CanRename(s, from, to) && from.dir != to.dir
    requires Below(s, to.dir, s.children[from]) && Below(s, d, s.children[from])
    ensures !Climbs(RenameState(s, from, to).parents, d, s.root, n)
    decreases n
  {
    var t := RenameState(s, from, to);
    var src := s.children[from];
    RenameRows(s, from, to);
    var k: nat :| Climbs(s.parents, d, src, k);
    assert d == s.root ==> k == 0;
    if n > 0 && d in t.parents {
      if d != src {
        assert Climbs(s.parents, s.parents[d], src, k - 1);
      }
      CycleNeverReachesRoot(s, from, to, t.parents[d], n - 1);
    }
  }

  /** The rename target lies inside the directory being moved. */
  ghost predicate Nests(s: State, from: Entry, to: Entry) {
    && from in s.children && from.dir != to.dir && IsDir(s, s.children[from])
    && Below(s, to.dir, s.children[from])
  }

  /** A rename keeps the tree exactly when its target is not inside the moved
      subtree. */
  lemma RenameKeepsTree(s: State, from: Entry, to: Entry)
    requires Tree(s) && CanRename(s, from, to) && TargetEmpty(s, to)
    ensures Tree(RenameState(s, from, to)) <==> !Nests(s, from, to)
  {
    var t := RenameState(s, from, to);
    RenameWellFormed(s, from, to);
    RenameRows(s, from, to);
    if Nests(s, from, to) {
      var src := s.children[from];
      assert Climbs(s.parents, src, src, 0);
      forall n: nat ensures !Climbs(t.parents, src, s.root, n) {
        CycleNeverReachesRoot(s, from, to, src, n);
      }
      assert IsDir(t, src) && !Below(t, src, t.root);
    } else if from.dir == to.dir || !IsDir(s, s.children[from]) {
      RenameSameEdges(s, from, to);
    } else {
      RenameConnected(s, from, to);
    }
  }

  // ---- every step, every run ----

  ghost predicate NestingCall(s: State, c: Call) {
    Succeeds(s, c) && c.op.Rename? && c.op.from != c.op.to && Nests(s, c.op.from, c.op.to)
  }

  lemma SameEdgesConnected(s: State, t: State)
    requires Connected(s) && t.root == s.root && t.kinds == s.kinds && t.parents == s.parents
    ensures Connected(t)
  {
    forall d | IsDir(t, d) ensures Below(t, d, t.root) {
      assert Below(s, d, s.root);
    }
  }

  // A directory that is removed or replaced takes its entries along.  A file among
  // them does not matter to the tree, a subdirectory does.

  ghost predicate HasSubdir(s: State, v: Handle) {
    exists e :: e in s.children && e.dir == v && IsDir(s, s.children[e])
  }

  /** The directory a call deletes holds no subdirectory.  A call deletes one that
      holds anything at all only when its listing failed. */
  ghost predicate TreeSafe(s: State, c: Call) {
    Succeeds(s, c) ==>
      match c.op
      case Rmdir(dir, name) => !HasSubdir(s, s.children[Entry(dir, name)])
      case Rename(from, to) => from != to && Replaces(s, to) ==> !HasSubdir(s, s.children[to])
      case _ => true
  }

  lemma UnsafeListingFailed(s: State, c: Call)
    requires FreshHandle(s, c) && !TreeSafe(s, c)
    ensures c.faults.listFails
  {
  }

  /** The state with a directory's entries taken out beforehand. */
  function Emptied(s: State, v: Handle): State {
    s.(children := map e | e in s.children && e.dir != v :: s.children[e])
  }

  lemma EmptiedTree(s: State, v: Handle)
    requires Tree(s) && !HasSubdir(s, v)
    ensures Tree(Emptied(s, v)) && IsEmptyDir(Emptied(s, v), v)
  {
    var t := Emptied(s, v);
    forall d | IsDir(t, d) && d != t.root ensures HasEntry(t, d) {
      assert HasEntry(s, d);
      var e :| e in s.children && s.children[e] == d;
      assert e in t.children && t.children[e] == d;
    }
    SameEdgesConnected(s, t);
  }

  lemma DeleteEmptied(s: State, v: Handle)
    ensures DeleteFile(Emptied(s, v), v) == DeleteFile(s, v)
  {
  }

  lemma {:induction false} SameBelow(s: State, t: State, h: Handle, top: Handle)
    requires s.parents == t.parents
    ensures Below(s, h, top) <==> Below(t, h, top)
  {
    if Below(s, h, top) {
      var n: nat :| Climbs(s.parents, h, top, n);
      assert Climbs(t.parents, h, top, n);
    }
    if Below(t, h, top) {
      var n: nat :| Climbs(t.parents, h, top, n);
      assert Climbs(s.parents, h, top, n);
    }
  }

  /** A directory that keeps its row and loses its entry is out of the tree. */
  lemma LostDirectory(t: State, d: Handle)
    requires IsDir(t, d) && d != t.root && forall e :: e in t.children ==> t.children[e] != d
    ensures !Tree(t)
  {
    assert !HasEntry(t, d);
  }

  lemma RmdirTree(s: State, f: Faults, dir: Handle, name: Name)
    requires Tree(s) && Entry(dir, name) in s.children
    requires var v := s.children[Entry(dir, name)]; IsDir(s, v) && v != dir
    ensures Tree(RmdirState(s, f, dir, name)) <==> !HasSubdir(s, s.children[Entry(dir, name)])
  {
    var v := s.children[Entry(dir, name)];
    var t := RmdirState(s, f, dir, name);
    if HasSubdir(s, v) {
      var e :| e in s.children && e.dir == v && IsDir(s, s.children[e]);
      ParentEdgeNoLoop(s, e);
      forall x | x in t.children ensures t.children[x] != s.children[e] {
        assert x in s.children && x.dir != v && t.children[x] == s.children[x];
      }
      LostDirectory(t, s.children[e]);
    } else {
      EmptiedTree(s, v);
      DeleteEmptied(s, v);
      RmdirWellFormed(Emptied(s, v), f, dir, name);
      RmdirConnected(Emptied(s, v), f, dir, name);
    }
  }

  /** No directory of a tree is an entry of itself. */
  lemma ParentEdgeNoLoop(s: State, e: Entry)
    requires Tree(s) && e in s.children && IsDir(s, s.children[e])
    ensures s.children[e] != e.dir
  {
    var d := s.children[e];
    if d == e.dir {
      assert s.parents[d] == d;
      var n: nat :| Climbs(s.parents, d, s.root, n);
      LoopNeverClimbs(s.parents, d, s.root, n);
    }
  }

  lemma {:induction false} LoopNeverClimbs(p: map<Handle, Handle>, d: Handle, top: Handle, n: nat)
    requires d in p && p[d] == d && d != top
    ensures !Climbs(p, d, top, n)
    decreases n
  {
    if n > 0 {
      LoopNeverClimbs(p, d, top, n - 1);
    }
  }

  lemma RenameTree(s: State, from: Entry, to: Entry)
    requires Tree(s) && CanRename(s, from, to)
    ensures Tree(RenameState(s, from, to)) <==>
            !Nests(s, from, to) && (Replaces(s, to) ==> !HasSubdir(s, s.children[to]))
  {
    if Replaces(s, to) {
      var v := s.children[to];
      if HasSubdir(s, v) {
        var e :| e in s.children && e.dir == v && IsDir(s, s.children[e]);
        RenameLosesSubdir(s, from, to, e);
      } else {
        EmptiedTree(s, v);
        DeleteEmptied(s, v);
        SameBelow(s, Emptied(s, v), to.dir, s.children[from]);
        EmptiedRename(s, from, to);
        RenameKeepsTree(Emptied(s, v), from, to);
      }
    } else {
      RenameKeepsTree(s, from, to);
    }
  }

  lemma EmptiedRename(s: State, from: Entry, to: Entry)
    requires CanRename(s, from, to) && Replaces(s, to)
    ensures var t := Emptied(s, s.children[to]);
            CanRename(t, from, to) && RenameState(t, from, to) == RenameState(s, from, to)
  {
    DeleteEmptied(s, s.children[to]);
  }

  lemma RenameLosesSubdir(s: State, from: Entry, to: Entry, e: Entry)
    requires Tree(s) && CanRename(s, from, to) && Replaces(s, to)
    requires e in s.children && e.dir == s.children[to] && IsDir(s, s.children[e])
    ensures !Tree(RenameState(s, from, to))
  {
    var t := RenameState(s, from, to);
    RenameRows(s, from, to);
    ParentEdgeNoLoop(s, e);
    assert e != from && e != to;
    assert s.children[e] != s.children[from];
    forall x | x in t.children ensures t.children[x] != s.children[e] {
      if x != to {
        assert x in s.children && x.dir != e.dir && t.children[x] == s.children[x];
      }
    }
    LostDirectory(t, s.children[e]);
  }

  /** Any call, whatever its faults and however wrong the counts already are, keeps
      the tree exactly when it neither nests a directory in itself nor deletes one
      that holds a subdirectory. */
  lemma StepKeepsTree(s: State, c: Call)
    requires Tree(s) && FreshHandle(s, c)
    ensures Tree(Next(s, c)) <==> !NestingCall(s, c) && TreeSafe(s, c)
  {
    if Succeeds(s, c) {
      match c.op
      case Create(dir, name, kind, newId) =>
        CreateWellFormed(s, c.faults, dir, name, kind, newId);
        CreateConnected(s, c.faults, dir, name, kind, newId);
      case Link(dir, name, target) =>
        LinkWellFormed(s, c.faults, dir, name, target);
        SameEdgesConnected(s, Next(s, c));
      case Unlink(dir, name) =>
        UnlinkWellFormed(s, c.faults, dir, name);
        SameEdgesConnected(s, Next(s, c));
      case Rmdir(dir, name) => RmdirTree(s, c.faults, dir, name);
      case Rename(from, to) =>
        if from != to {
          RenameReachesTransaction(s, map[], c);
          RenameTree(s, from, to);
        }
    }
  }

  ghost predicate RunShapes(s: State, calls: seq<Call>)
    decreases |calls|
  {
    calls != [] ==>
      && FreshHandle(s, calls[0]) && !NestingCall(s, calls[0]) && TreeSafe(s, calls[0])
      && RunShapes(Next(s, calls[0]), calls[1..])
  }

  /** The tree theorem: any run whose renames never move a directory into its own
      subtree, and whose failed listings never delete a directory with subdirectories,
      keeps every directory connected to the root by its one entry. */
  lemma {:induction false} RunKeepsTree(s: State, calls: seq<Call>)
    requires Tree(s) && RunShapes(s, calls)
    ensures Tree(Run(s, calls))
    decreases |calls|
  {
    if calls != [] {
      StepKeepsTree(s, calls[0]);
      RunKeepsTree(Next(s, calls[0]), calls[1..]);
    }
  }

  ghost predicate RunAvoidsNesting(s: State, calls: seq<Call>)
    decreases |calls|
  {
    calls != [] ==> !NestingCall(s, calls[0]) && RunAvoidsNesting(Next(s, calls[0]), calls[1..])
  }

  lemma {:induction false} HarmlessShapes(s: State, calls: seq<Call>)
    requires RunHarmless(s, calls) && RunAvoidsNesting(s, calls)
    ensures RunShapes(s, calls)
    decreases |calls|
  {
    if calls != [] {
      HarmlessIsSafe(s, calls[0]);
      HarmlessShapes(Next(s, calls[0]), calls[1..]);
    }
  }

  lemma HarmlessIsSafe(s: State, c: Call)
    requires FreshHandle(s, c) && Harmless(s, c)
    ensures TreeSafe(s, c)
  {
    if Succeeds(s, c) && c.op.Rename? && c.op.from != c.op.to {
      RenameReachesTransaction(s, map[], c);
    }
  }

  /** A new share: the root directory alone. */
  function NewShare(root: Handle): State {
    State(root, map[root := Directory], map[], map[], map[root := 2])
  }

  lemma NewShareInv(root: Handle)
    ensures Inv(NewShare(root), map[])
  {
    assert SubdirEntries(NewShare(root).children, NewShare(root).kinds, root) == {};
  }

  ghost predicate NoReplacement(s: State, calls: seq<Call>)
    decreases |calls|
  {
    calls != [] ==> !ReplacesDir(s, calls[0]) && NoReplacement(Next(s, calls[0]), calls[1..])
  }

  lemma {:induction false} NoReplacementNoDrift(s: State, drift: Drift, calls: seq<Call>, h: Handle)
    requires NoReplacement(s, calls) && DriftOf(drift, h) == 0
    ensures DriftOf(RunDrift(s, drift, calls), h) == 0
    decreases |calls|
  {
    if calls != [] {
      NoReplacementNoDrift(Next(s, calls[0]), NextDrift(s, drift, calls[0]), calls[1..], h);
    }
  }

  /** From a new share, with no directory replaced and no directory nested, the
      final namespace is a tree with the link counts POSIX asks for. */
  lemma ShareLinkCounts(root: Handle, calls: seq<Call>, h: Handle)
    requires RunHarmless(NewShare(root), calls) && RunAvoidsNesting(NewShare(root), calls)
    requires NoReplacement(NewShare(root), calls)
    ensures var t := Run(NewShare(root), calls);
            && Tree(t)
            && (h in t.kinds && t.kinds[h] == Directory ==>
                  LinkCount(t, h) == 2 + |SubdirEntries(t.children, t.kinds, h)|)
            && (h in t.kinds && t.kinds[h] == NonDirectory ==> LinkCount(t, h) == |EntriesTo(t.children, h)|)
  {
    var s := NewShare(root);
    assert Climbs(s.parents, root, root, 0);
    NewShareInv(root);
    RunKeepsInv(s, map[], calls);
    HarmlessShapes(s, calls);
    RunKeepsTree(s, calls);
    NoReplacementNoDrift(s, map[], calls, h);
    assert Exact(Run(s, calls), RunDrift(s, map[], calls), h);
  }

  /** And with directories replaced, a directory's count is the one POSIX asks for
      exactly when no rename replaced a directory in it. */
  lemma DirectoryCountExact(root: Handle, calls: seq<Call>, h: Handle)
    requires RunHarmless(NewShare(root), calls) && IsDir(Run(NewShare(root), calls), h)
    ensures var t := Run(NewShare(root), calls);
            LinkCount(t, h) == 2 + |SubdirEntries(t.children, t.kinds, h)| <==>
            DriftOf(RunDrift(NewShare(root), map[], calls), h) == 0
  {
    NewShareInv(root);
    RunKeepsInv(NewShare(root), map[], calls);
    assert Exact(Run(NewShare(root), calls), RunDrift(NewShare(root), map[], calls), h);
  }

  const NO_FAULTS := Faults(false, false, false)

  /** What mkdir a; mkdir a/b leaves on a new share. */
  const A_B := State(0, map[0 := Directory, 1 := Directory, 2 := Directory],
                     map[Entry(0, "a") := 1, Entry(1, "b") := 2], map[1 := 0, 2 := 1], map[0 := 3, 1 := 3, 2 := 2])

  const A := State(0, map[0 := Directory, 1 := Directory], map[Entry(0, "a") := 1], map[1 := 0], map[0 := 3, 1 := 2])

  lemma FirstMkdir()
    ensures Next(NewShare(0), Call(Create(0, "a", Directory, 1), NO_FAULTS, true)) == A
  {
  }

  lemma SecondMkdir()
    ensures Next(A, Call(Create(1, "b", Directory, 2), NO_FAULTS, true)) == A_B
  {
  }

  lemma TwoMkdirsTree()
    ensures Tree(A_B)
  {
    assert A_B.children[Entry(0, "a")] == 1 && A_B.children[Entry(1, "b")] == 2;
    assert HasEntry(A_B, 1) && HasEntry(A_B, 2);
    assert Climbs(A_B.parents, 0, 0, 0) && Climbs(A_B.parents, 1, 0, 1) && Climbs(A_B.parents, 2, 0, 2);
  }

  /** What create a leaves on a new share. */
  const FILE_A := State(0, map[0 := Directory, 1 := NonDirectory], map[Entry(0, "a") := 1], map[1 := 0],
                        map[0 := 2, 1 := 1])

  lemma FirstCreate()
    ensures Next(NewShare(0), Call(Create(0, "a", NonDirectory, 1), NO_FAULTS, true)) == FILE_A
  {
  }

  /** Linking it as b while its count cannot be read: two entries and a count of one. */
  lemma FailedCountReadHarms()
    ensures var t := Next(FILE_A, Call(Link(0, "b", 1), Faults(false, false, true), true));
            LinkCount(t, 1) == 1 && EntriesTo(t.children, 1) == {Entry(0, "a"), Entry(0, "b")}
  {
    var t := Next(FILE_A, Call(Link(0, "b", 1), Faults(false, false, true), true));
    assert t.children == map[Entry(0, "a") := 1, Entry(0, "b") := 1];
  }

  /** Removing a, which holds b, while it cannot be listed: b keeps its row and loses
      its entry. */
  lemma FailedListingHarms()
    ensures var c := Call(Rmdir(0, "a"), Faults(false, true, false), true);
            Succeeds(A_B, c) && !TreeSafe(A_B, c) && IsDir(Next(A_B, c), 2) && !HasEntry(Next(A_B, c), 2)
  {
    var c := Call(Rmdir(0, "a"), Faults(false, true, false), true);
    assert A_B.children[Entry(0, "a")] == 1 && A_B.children[Entry(1, "b")] == 2;
    assert HasSubdir(A_B, 1);
    var t := Next(A_B, c);
    assert t == RmdirState(A_B, c.faults, 0, "a");
    assert forall e :: e in t.children ==> e in A_B.children && e.dir != 1 && e != Entry(0, "a");
  }

  /** What mkdir a; mkdir b leaves, and then a rename of a over b. */
  const A_AND_B := State(0, map[0 := Directory, 1 := Directory, 2 := Directory],
                         map[Entry(0, "a") := 1, Entry(0, "b") := 2], map[1 := 0, 2 := 0], map[0 := 4, 1 := 2, 2 := 2])

  const A_OVER_B := State(0, map[0 := Directory, 1 := Directory], map[Entry(0, "b") := 1], map[1 := 0],
                          map[0 := 4, 1 := 2])

  lemma SecondMkdirBeside()
    ensures Next(A, Call(Create(0, "b", Directory, 2), NO_FAULTS, true)) == A_AND_B
  {
  }

  lemma EmptyTargetGoes()
    ensures ClobberState(A_AND_B, Entry(0, "b")) == A.(links := map[0 := 4, 1 := 2])
  {
    EmptyTargetEntries();
    EmptyTargetRows();
  }

  lemma EmptyTargetEntries()
    ensures DeleteFile(A_AND_B, 2).children - {Entry(0, "b")} == A.children
  {
    DeleteEmptyDir(A_AND_B, 2);
    assert A_AND_B.children - {Entry(0, "b")} == A.children;
  }

  lemma EmptyTargetRows()
    ensures var t := DeleteFile(A_AND_B, 2);
            t.kinds == A.kinds && t.parents == A.parents && t.links == map[0 := 4, 1 := 2]
  {
    assert A_AND_B.kinds - {2} == A.kinds;
    assert A_AND_B.parents - {2} == A.parents;
    assert A_AND_B.links - {2} == map[0 := 4, 1 := 2];
  }

  lemma RenameOverEmpty()
    ensures RenameState(A_AND_B, Entry(0, "a"), Entry(0, "b")) == A_OVER_B
  {
    EmptyTargetGoes();
  }

  lemma RenameOverEmptySucceeds()
    ensures Succeeds(A_AND_B, Call(Rename(Entry(0, "a"), Entry(0, "b")), NO_FAULTS, true))
  {
    assert A_AND_B.children[Entry(0, "a")] == 1 && A_AND_B.children[Entry(0, "b")] == 2;
  }

  /** The root then has one subdirectory and a count of four. */
  lemma ReplacedDirectoryDrifts()
    ensures Next(A_AND_B, Call(Rename(Entry(0, "a"), Entry(0, "b")), NO_FAULTS, true)) == A_OVER_B
    ensures LinkCount(A_OVER_B, 0) == 4 && |SubdirEntries(A_OVER_B.children, A_OVER_B.kinds, 0)| == 1
  {
    var c := Call(Rename(Entry(0, "a"), Entry(0, "b")), NO_FAULTS, true);
    RenameOverEmptySucceeds();
    RenameReachesTransaction(A_AND_B, map[], c);
    RenameOverEmpty();
    assert SubdirEntries(A_OVER_B.children, A_OVER_B.kinds, 0) == {Entry(0, "b")};
  }

  /** mkdir a; mkdir a/b; rename a to a/b/c: every call succeeds, and a is cut
      off from the root. */
  lemma NestingRenameSucceeds()
    ensures var c := Call(Rename(Entry(0, "a"), Entry(2, "c")), NO_FAULTS, true);
            Tree(A_B) && Succeeds(A_B, c) && !Tree(Next(A_B, c))
  {
    TwoMkdirsTree();
    var c := Call(Rename(Entry(0, "a"), Entry(2, "c")), NO_FAULTS, true);
    assert Climbs(A_B.parents, 2, 1, 1);
    assert Nests(A_B, c.op.from, c.op.to);
    assert Succeeds(A_B, c);
    RenameReachesTransaction(A_B, map[], c);
    RenameKeepsTree(A_B, c.op.from, c.op.to);
  }
}
