/** Where a path below the share's root leads, and when it can be walked or made. */
module BinPath {

  import opened Common
  import opened Namespace
  import opened NamespaceEffects
  import opened NamespaceTheorems
  import opened RecycleBin
  import NamespaceTree

  // ---- growing by directories alone ----

  ghost predicate MadeDir(f: Faults, s: State, t: State, dir: Handle, name: Name, newId: Handle) {
    newId !in s.kinds && CreateOutcome(s, f, dir, name, Directory, newId) == Done(t)
  }

  /** At most one directory was made. */
  ghost predicate Mkdir(f: Faults, s: State, t: State) {
    t == s || exists dir, name, newId :: MadeDir(f, s, t, dir, name, newId)
  }

  ghost predicate History(f: Faults, states: seq<State>) {
    forall i :: 0 < i < |states| ==> Mkdir(f, states[i - 1], states[i])
  }

  ghost predicate Links(f: Faults, states: seq<State>, s: State, t: State) {
    states != [] && states[0] == s && states[|states| - 1] == t && History(f, states)
  }

  /** `t` is `s` after any number of directories were made, and nothing else. */
  ghost predicate Growth(f: Faults, s: State, t: State) {
    exists states :: Links(f, states, s, t)
  }

  lemma GrowthNone(f: Faults, s: State)
    ensures Growth(f, s, s)
  {
    assert Links(f, [s], s, s);
  }

  lemma GrowthMore(f: Faults, s: State, m: State, t: State)
    requires Growth(f, s, m) && Mkdir(f, m, t)
    ensures Growth(f, s, t)
  {
    var states :| Links(f, states, s, m);
    var more := states + [t];
    assert forall i :: 0 <= i < |states| ==> more[i] == states[i];
    assert Links(f, more, s, t);
  }

  lemma GrowthJoins(f: Faults, s: State, m: State, t: State)
    requires Growth(f, s, m) && Growth(f, m, t)
    ensures Growth(f, s, t)
  {
    var states :| Links(f, states, m, t);
    HistoryJoins(f, s, states, |states| - 1);
  }

  lemma {:induction false} HistoryJoins(f: Faults, s: State, states: seq<State>, i: nat)
    requires i < |states| && History(f, states) && Growth(f, s, states[0])
    ensures Growth(f, s, states[i])
  {
    if i > 0 {
      HistoryJoins(f, s, states, i - 1);
      GrowthMore(f, s, states[i - 1], states[i]);
    }
  }

  /** Making directories keeps the tree. */
  lemma GrowthTree(f: Faults, s: State, t: State)
    requires Growth(f, s, t) && NamespaceTree.Tree(s)
    ensures NamespaceTree.Tree(t)
  {
    var states :| Links(f, states, s, t);
    HistoryTree(f, states, |states| - 1);
  }

  lemma {:induction false} HistoryTree(f: Faults, states: seq<State>, i: nat)
    requires i < |states| && History(f, states) && NamespaceTree.Tree(states[0])
    ensures NamespaceTree.Tree(states[i])
  {
    if i > 0 {
      HistoryTree(f, states, i - 1);
      assert Mkdir(f, states[i - 1], states[i]);
      if states[i] != states[i - 1] {
        var dir, name, newId :| MadeDir(f, states[i - 1], states[i], dir, name, newId);
        NamespaceTree.StepKeepsTree(states[i - 1], Call(Create(dir, name, Directory, newId), f, true));
      }
    }
  }

  /** And moves nothing. */
  lemma GrowthKept(f: Faults, s: State, t: State)
    requires Growth(f, s, t)
    ensures Kept(s, t, {})
  {
    var states :| Links(f, states, s, t);
    HistoryKept(f, states, |states| - 1);
  }

  lemma {:induction false} HistoryKept(f: Faults, states: seq<State>, i: nat)
    requires i < |states| && History(f, states)
    ensures Kept(states[0], states[i], {})
  {
    if i > 0 {
      HistoryKept(f, states, i - 1);
      assert Mkdir(f, states[i - 1], states[i]);
    }
  }

  /** And keeps the link counts exact, when they can be read. */
  lemma GrowthInv(f: Faults, s: State, t: State, drift: Drift) returns (drift': Drift)
    requires Growth(f, s, t) && !f.linkReadFails && Inv(s, drift)
    ensures Inv(t, drift')
  {
    var states :| Links(f, states, s, t);
    drift' := HistoryInv(f, states, |states| - 1, drift);
  }

  lemma {:induction false} HistoryInv(f: Faults, states: seq<State>, i: nat, drift: Drift) returns (drift': Drift)
    requires i < |states| && History(f, states) && !f.linkReadFails && Inv(states[0], drift)
    ensures Inv(states[i], drift')
  {
    drift' := drift;
    if i > 0 {
      drift' := HistoryInv(f, states, i - 1, drift);
      assert Mkdir(f, states[i - 1], states[i]);
      if states[i] != states[i - 1] {
        var dir, name, newId :| MadeDir(f, states[i - 1], states[i], dir, name, newId);
        CreateKeeps(states[i - 1], drift', f, dir, name, Directory, newId);
        drift' := drift'[newId := 0];
      }
    }
  }

  // ---- paths ----

  /** The node at the end of a path, if every entry on the way is there. */
  function Walk(s: State, dir: Handle, path: seq<Name>): Option<Handle> {
    if path == [] then Some(dir)
    else
      match Walk(s, dir, path[..|path| - 1])
      case None => None
      case Some(h) =>
        var e := Entry(h, path[|path| - 1]);
        if e in s.children then Some(s.children[e]) else None
  }

  lemma WalkOn(s: State, dir: Handle, path: seq<Name>, name: Name)
    requires Walk(s, dir, path).Some? && Entry(Walk(s, dir, path).value, name) in s.children
    ensures Walk(s, dir, path + [name]) == Some(s.children[Entry(Walk(s, dir, path).value, name)])
  {
    assert (path + [name])[..|path|] == path;
  }

  /** Nothing that is added takes a path elsewhere. */
  lemma {:induction false} WalkKept(s: State, t: State, dir: Handle, path: seq<Name>)
    requires Kept(s, t, {}) && Walk(s, dir, path).Some?
    ensures Walk(t, dir, path) == Walk(s, dir, path)
  {
    if path != [] {
      WalkKept(s, t, dir, path[..|path| - 1]);
    }
  }

  /** As far as the path exists, it is made of directories. */
  predicate Passable(s: State, dir: Handle, path: seq<Name>)
    decreases |path|
  {
    && IsDir(s, dir)
    && (path != [] && Entry(dir, path[0]) in s.children ==> Passable(s, s.children[Entry(dir, path[0])], path[1..]))
  }

  /** Nothing but a directory is in the way of a child directory. */
  predicate Open(s: State, dir: Handle, name: Name) {
    IsDir(s, dir) && (Entry(dir, name) in s.children ==> IsDir(s, s.children[Entry(dir, name)]))
  }

  predicate Components(path: seq<Name>) {
    forall i :: 0 <= i < |path| ==> Component(path[i])
  }

  /** Every entry lies in a node that has a row. */
  ghost predicate Housed(s: State) {
    forall e :: e in s.children ==> e.dir in s.kinds
  }

  /** One step of making the path: the child was there, or is a new directory. */
  ghost predicate Stepped(s: State, t: State, dir: Handle, name: Name, newId: Handle) {
    var e := Entry(dir, name);
    if e in s.children then t == s
    else t.root == s.root && t.children == s.children[e := newId] && t.kinds == s.kinds[newId := Directory]
  }

  lemma StepPasses(s: State, t: State, dir: Handle, path: seq<Name>, newId: Handle)
    requires path != [] && Passable(s, dir, path) && Housed(s) && newId !in s.kinds
    requires Stepped(s, t, dir, path[0], newId)
    ensures Housed(t) && Passable(t, t.children[Entry(dir, path[0])], path[1..])
  {
  }

  /** The first `i` names of the path lead to `dir`, and the rest is passable from there
      if it was from the start. */
  ghost predicate OnPath(s: State, path: seq<Name>, i: nat, dir: Handle, passable: bool)
    requires i <= |path|
  {
    && Walk(s, s.root, path[..i]) == Some(dir)
    && (passable ==> Housed(s) && Passable(s, dir, path[i..]))
  }

  lemma PathStart(s: State, path: seq<Name>, passable: bool)
    requires passable ==> Housed(s) && Passable(s, s.root, path)
    ensures OnPath(s, path, 0, s.root, passable)
  {
    assert path[..0] == [] && path[0..] == path;
  }

  lemma PathEnd(s: State, path: seq<Name>, dir: Handle, passable: bool)
    requires OnPath(s, path, |path|, dir, passable)
    ensures Walk(s, s.root, path) == Some(dir)
  {
    assert path[..|path|] == path;
  }

  lemma PathStep(s: State, t: State, path: seq<Name>, i: nat, dir: Handle, next: Handle, newId: Handle, passable: bool)
    requires i < |path| && OnPath(s, path, i, dir, passable) && Kept(s, t, {}) && newId !in s.kinds
    requires Entry(dir, path[i]) in t.children && t.children[Entry(dir, path[i])] == next
    requires passable ==> Stepped(s, t, dir, path[i], newId)
    ensures OnPath(t, path, i + 1, next, passable)
  {
    WalkKept(s, t, s.root, path[..i]);
    WalkOn(t, t.root, path[..i], path[i]);
    assert path[..i] + [path[i]] == path[..i + 1];
    assert path[i..][1..] == path[i + 1..];
    if passable {
      StepPasses(s, t, dir, path[i..], newId);
    }
  }
}
