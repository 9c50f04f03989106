/** What every run of namespace operations keeps. */
module NamespaceTheorems {
  import opened Common
  import opened Namespace

  /** A faulty read or listing that the code acts on, and that leaves a count or
      an entry wrong.  Everything in it is known before the call. */
  ghost predicate Harmless(s: State, c: Call) {
    Succeeds(s, c) ==>
      match c.op
      case Create(_, _, kind, _) => kind == Directory ==> !c.faults.linkReadFails
      case Link(_, _, target) => c.faults.linkReadFails ==> LinkCount(s, target) == 0
      case Unlink(dir, name) => c.faults.linkReadFails ==> LinkCount(s, s.children[Entry(dir, name)]) == 1
      case Rmdir(dir, name) => !c.faults.linkReadFails && IsEmptyDir(s, s.children[Entry(dir, name)])
      case Rename(_, to) => ReplacesDir(s, c) ==> IsEmptyDir(s, s.children[to])
  }

  /** GenerateHandle never returns a handle in use. */
  predicate FreshHandle(s: State, c: Call) {
    c.op.Create? ==> c.op.newId !in s.kinds
  }

  // ---- how the two entry sets move ----

  lemma EntriesAdded(c: map<Entry, Handle>, e: Entry, t: Handle, h: Handle)
    requires e !in c
    ensures EntriesTo(c[e := t], h) == EntriesTo(c, h) + (if t == h then {e} else {})
  {
  }

  lemma EntriesRemoved(c: map<Entry, Handle>, e: Entry, h: Handle)
    ensures EntriesTo(c - {e}, h) == EntriesTo(c, h) - {e}
  {
  }

  lemma SubdirsAdded(c: map<Entry, Handle>, k: map<Handle, Kind>, e: Entry, t: Handle, d: Handle)
    requires e !in c
    ensures SubdirEntries(c[e := t], k, d) ==
            SubdirEntries(c, k, d) + (if e.dir == d && t in k && k[t] == Directory then {e} else {})
  {
  }

  lemma SubdirsRemoved(c: map<Entry, Handle>, k: map<Handle, Kind>, e: Entry, d: Handle)
    ensures SubdirEntries(c - {e}, k, d) == SubdirEntries(c, k, d) - {e}
  {
  }

  /** Only the kinds of entry targets matter. */
  lemma SubdirsReframed(c: map<Entry, Handle>, k: map<Handle, Kind>, k': map<Handle, Kind>, d: Handle)
    requires forall e :: e in c ==> c[e] in k && c[e] in k' && k[c[e]] == k'[c[e]]
    ensures SubdirEntries(c, k, d) == SubdirEntries(c, k', d)
  {
  }

  lemma NoEntriesOfUnusedHandle(s: State, h: Handle)
    requires EntriesLive(s) && h !in s.kinds
    ensures EntriesTo(s.children, h) == {} && SubdirEntries(s.children, s.kinds, h) == {}
  {
  }

  // ---- create ----

  lemma CreateWellFormed(s: State, f: Faults, dir: Handle, name: Name, kind: Kind, newId: Handle)
    requires WellFormed(s) && newId !in s.kinds && IsDir(s, dir) && Entry(dir, name) !in s.children
    ensures WellFormed(CreateState(s, f, dir, name, kind, newId))
  {
    var t := CreateState(s, f, dir, name, kind, newId);
    assert t.children[Entry(dir, name)] == newId;
    forall d | IsDir(t, d) && d != t.root ensures HasEntry(t, d) {
      if d != newId {
        assert HasEntry(s, d);
        var e :| e in s.children && s.children[e] == d;
        assert e in t.children && t.children[e] == d;
      }
    }
  }

  lemma CreateSets(s: State, f: Faults, dir: Handle, name: Name, kind: Kind, newId: Handle, h: Handle)
    requires EntriesLive(s) && newId !in s.kinds && IsDir(s, dir) && Entry(dir, name) !in s.children
    ensures var t := CreateState(s, f, dir, name, kind, newId);
            && EntriesTo(t.children, h) == EntriesTo(s.children, h) + (if h == newId then {Entry(dir, name)} else {})
            && SubdirEntries(t.children, t.kinds, h) ==
               SubdirEntries(s.children, s.kinds, h)
               + (if h == dir && kind == Directory then {Entry(dir, name)} else {})
            && (h == newId ==> EntriesTo(s.children, h) == {} && SubdirEntries(s.children, s.kinds, h) == {})
  {
    var t := CreateState(s, f, dir, name, kind, newId);
    EntriesAdded(s.children, Entry(dir, name), newId, h);
    SubdirsAdded(s.children, t.kinds, Entry(dir, name), newId, h);
    SubdirsReframed(s.children, s.kinds, t.kinds, h);
    NoEntriesOfUnusedHandle(s, newId);
  }

  lemma CreateSizes(s: State, f: Faults, dir: Handle, name: Name, kind: Kind, newId: Handle, h: Handle)
    requires EntriesLive(s) && newId !in s.kinds && IsDir(s, dir) && Entry(dir, name) !in s.children
    ensures var t := CreateState(s, f, dir, name, kind, newId);
            && |EntriesTo(t.children, h)| == (if h == newId then 1 else |EntriesTo(s.children, h)|)
            && |SubdirEntries(t.children, t.kinds, h)| ==
               (if h == newId then 0 else |SubdirEntries(s.children, s.kinds, h)|)
               + (if h == dir && kind == Directory then 1 else 0)
  {
    CreateSets(s, f, dir, name, kind, newId, h);
    SetSizes(EntriesTo(s.children, h), Entry(dir, name));
    SetSizes(SubdirEntries(s.children, s.kinds, h), Entry(dir, name));
  }

  lemma CreateLinks(s: State, drift: Drift, f: Faults, dir: Handle, name: Name, kind: Kind, newId: Handle, h: Handle)
    requires EntriesLive(s) && s.links.Keys == s.kinds.Keys && Exact(s, drift, h)
    requires newId !in s.kinds && IsDir(s, dir) && Entry(dir, name) !in s.children
    requires h in s.kinds || h == newId
    ensures Exact(CreateState(s, f, dir, name, kind, newId), drift[newId := 0], h)
            <==> (h == dir && kind == Directory ==> !f.linkReadFails)
  {
    CreateSizes(s, f, dir, name, kind, newId, h);
  }

  lemma CreateKeeps(s: State, drift: Drift, f: Faults, dir: Handle, name: Name, kind: Kind, newId: Handle)
    requires Inv(s, drift) && newId !in s.kinds && IsDir(s, dir) && Entry(dir, name) !in s.children
    ensures Inv(CreateState(s, f, dir, name, kind, newId), drift[newId := 0])
            <==> (kind == Directory ==> !f.linkReadFails)
  {
    var t := CreateState(s, f, dir, name, kind, newId);
    CreateWellFormed(s, f, dir, name, kind, newId);
    forall h
      ensures h in t.kinds ==>
                (Exact(t, drift[newId := 0], h) <==> (h == dir && kind == Directory ==> !f.linkReadFails))
    {
      assert Exact(s, drift, h);
      if h in t.kinds {
        CreateLinks(s, drift, f, dir, name, kind, newId, h);
      }
    }
    assert dir in t.kinds;
  }

  // ---- hard link ----

  lemma LinkWellFormed(s: State, f: Faults, dir: Handle, name: Name, target: Handle)
    requires WellFormed(s) && IsDir(s, dir) && Entry(dir, name) !in s.children
    requires target in s.kinds && s.kinds[target] == NonDirectory
    ensures WellFormed(LinkState(s, f, dir, name, target))
  {
    var t := LinkState(s, f, dir, name, target);
    forall d | IsDir(t, d) && d != t.root ensures HasEntry(t, d) {
      assert HasEntry(s, d);
      var e :| e in s.children && s.children[e] == d;
      assert e in t.children && t.children[e] == d;
    }
  }

  lemma LinkLinks(s: State, drift: Drift, f: Faults, dir: Handle, name: Name, target: Handle, h: Handle)
    requires Entry(dir, name) !in s.children && s.links.Keys == s.kinds.Keys && Exact(s, drift, h)
    requires target in s.kinds && s.kinds[target] == NonDirectory && h in s.kinds
    ensures Exact(LinkState(s, f, dir, name, target), drift, h)
            <==> (h == target && f.linkReadFails ==> LinkCount(s, target) == 0)
  {
    EntriesAdded(s.children, Entry(dir, name), target, h);
    SubdirsAdded(s.children, s.kinds, Entry(dir, name), target, h);
  }

  lemma LinkKeeps(s: State, drift: Drift, f: Faults, dir: Handle, name: Name, target: Handle)
    requires Inv(s, drift) && IsDir(s, dir) && Entry(dir, name) !in s.children
    requires target in s.kinds && s.kinds[target] == NonDirectory
    ensures Inv(LinkState(s, f, dir, name, target), drift)
            <==> (f.linkReadFails ==> LinkCount(s, target) == 0)
  {
    var t := LinkState(s, f, dir, name, target);
    LinkWellFormed(s, f, dir, name, target);
    forall h
      ensures h in t.kinds ==>
                (Exact(t, drift, h) <==> (h == target && f.linkReadFails ==> LinkCount(s, target) == 0))
    {
      assert Exact(s, drift, h);
      if h in t.kinds {
        LinkLinks(s, drift, f, dir, name, target, h);
      }
    }
    assert target in t.kinds;
  }

  // ---- unlink ----

  lemma UnlinkWellFormed(s: State, f: Faults, dir: Handle, name: Name)
    requires WellFormed(s) && Entry(dir, name) in s.children
    requires s.kinds[s.children[Entry(dir, name)]] == NonDirectory
    ensures WellFormed(UnlinkState(s, f, dir, name))
  {
    var t := UnlinkState(s, f, dir, name);
    forall d | IsDir(t, d) && d != t.root ensures HasEntry(t, d) {
      assert HasEntry(s, d);
      var e :| e in s.children && s.children[e] == d;
      assert e in t.children && t.children[e] == d;
    }
  }

  lemma UnlinkLinks(s: State, drift: Drift, f: Faults, dir: Handle, name: Name, h: Handle)
    requires var e := Entry(dir, name);
             e in s.children && s.children[e] in s.kinds && s.kinds[s.children[e]] == NonDirectory
    requires s.links.Keys == s.kinds.Keys && h in s.kinds && Exact(s, drift, h)
    ensures var e := Entry(dir, name);
            Exact(UnlinkState(s, f, dir, name), drift, h)
            <==> (h == s.children[e] && f.linkReadFails ==> LinkCount(s, s.children[e]) == 1)
  {
    EntriesRemoved(s.children, Entry(dir, name), h);
    SubdirsRemoved(s.children, s.kinds, Entry(dir, name), h);
    assert h == s.children[Entry(dir, name)] ==> Entry(dir, name) in EntriesTo(s.children, h);
  }

  lemma UnlinkKeeps(s: State, drift: Drift, f: Faults, dir: Handle, name: Name)
    requires Inv(s, drift) && Entry(dir, name) in s.children
    requires s.kinds[s.children[Entry(dir, name)]] == NonDirectory
    ensures Inv(UnlinkState(s, f, dir, name), drift)
            <==> (f.linkReadFails ==> LinkCount(s, s.children[Entry(dir, name)]) == 1)
  {
    var t := UnlinkState(s, f, dir, name);
    var victim := s.children[Entry(dir, name)];
    UnlinkWellFormed(s, f, dir, name);
    forall h
      ensures h in t.kinds ==>
                (Exact(t, drift, h) <==> (h == victim && f.linkReadFails ==> LinkCount(s, victim) == 1))
    {
      assert Exact(s, drift, h);
      if h in t.kinds {
        UnlinkLinks(s, drift, f, dir, name, h);
      }
    }
    assert victim in t.kinds;
  }

  // ---- deleting a directory row ----

  /** Deleting an empty directory's row takes no entry along. */
  lemma DeleteEmptyDir(s: State, d: Handle)
    requires IsEmptyDir(s, d)
    ensures DeleteFile(s, d).children == s.children
  {
  }

  /** Deleting a directory that still has an entry breaks the invariant: the
      node behind that entry keeps its row but loses the entry. */
  lemma DeleteNonEmptyDir(s: State, drift: Drift, t: State, drift': Drift, d: Handle, e: Entry)
    requires Inv(s, drift) && IsDir(s, d) && e in s.children && e.dir == d && s.children[e] != d
    requires t.root == s.root && t.kinds == s.kinds - {d}
    requires forall x :: x in t.children && t.children[x] == s.children[e] ==>
               x in s.children && x.dir != d && s.children[x] == s.children[e]
    requires s.kinds[s.children[e]] == NonDirectory ==> LinkCount(t, s.children[e]) == LinkCount(s, s.children[e])
    ensures !Inv(t, drift')
  {
    var c := s.children[e];
    assert c in t.kinds;
    if s.kinds[c] == Directory {
      assert !HasEntry(t, c);
    } else {
      assert EntriesTo(t.children, c) < EntriesTo(s.children, c) by {
        assert e in EntriesTo(s.children, c);
      }
      SubsetSmaller(EntriesTo(t.children, c), EntriesTo(s.children, c));
      assert Exact(s, drift, c);
      assert !Exact(t, drift', c);
    }
  }

  lemma SubsetSmaller(a: set<Entry>, b: set<Entry>)
    requires a < b
    ensures |a| < |b|
  {
    assert b == a + (b - a);
  }

  // ---- rmdir ----

  lemma RmdirWellFormed(s: State, f: Faults, dir: Handle, name: Name)
    requires WellFormed(s) && Entry(dir, name) in s.children
    requires var v := s.children[Entry(dir, name)]; IsDir(s, v) && v != dir && IsEmptyDir(s, v)
    ensures WellFormed(RmdirState(s, f, dir, name))
  {
    var t := RmdirState(s, f, dir, name);
    RmdirRows(s, f, dir, name);
    RmdirEntries(s, t, Entry(dir, name));
    forall d | IsDir(t, d) && d != t.root ensures HasEntry(t, d) {
      assert HasEntry(s, d);
      var e :| e in s.children && s.children[e] == d;
      assert e in t.children && t.children[e] == d;
    }
  }

  /** The tables after an rmdir of an empty directory. */
  lemma RmdirRows(s: State, f: Faults, dir: Handle, name: Name)
    requires Entry(dir, name) in s.children && s.links.Keys == s.kinds.Keys
    requires var v := s.children[Entry(dir, name)]; v != dir && IsEmptyDir(s, v)
    ensures var t := RmdirState(s, f, dir, name);
            var v := s.children[Entry(dir, name)];
            && t.root == s.root && t.kinds == s.kinds - {v} && t.parents == s.parents - {v}
            && t.children == s.children - {Entry(dir, name)} && t.links.Keys == t.kinds.Keys
  {
    DeleteEmptyDir(s, s.children[Entry(dir, name)]);
  }

  /** Taking out an empty directory and its one entry. */
  lemma RmdirEntries(s: State, t: State, e: Entry)
    requires EntriesLive(s) && DirEntriesUnique(s) && e in s.children
    requires IsDir(s, s.children[e]) && IsEmptyDir(s, s.children[e])
    requires t.root == s.root && t.kinds == s.kinds - {s.children[e]} && t.parents == s.parents - {s.children[e]}
    requires t.children == s.children - {e}
    ensures EntriesLive(t) && DirEntriesUnique(t)
  {
    forall x | x in t.children ensures IsDir(t, x.dir) && t.children[x] in t.kinds && t.children[x] != t.root {
      assert x in s.children && x != e;
    }
  }

  lemma RmdirSets(s: State, f: Faults, dir: Handle, name: Name, h: Handle)
    requires WellFormed(s) && Entry(dir, name) in s.children
    requires var v := s.children[Entry(dir, name)]; IsDir(s, v) && v != h && IsEmptyDir(s, v)
    ensures var t := RmdirState(s, f, dir, name);
            && EntriesTo(t.children, h) == EntriesTo(s.children, h)
            && SubdirEntries(t.children, t.kinds, h) == SubdirEntries(s.children, s.kinds, h) - {Entry(dir, name)}
  {
    var t := RmdirState(s, f, dir, name);
    var e := Entry(dir, name);
    DeleteEmptyDir(s, s.children[e]);
    assert t.children == s.children - {e};
    EntriesRemoved(s.children, e, h);
    SubdirsRemoved(s.children, s.kinds, e, h);
    SubdirsReframed(t.children, s.kinds, t.kinds, h);
  }

  lemma RmdirSizes(s: State, f: Faults, dir: Handle, name: Name, h: Handle)
    requires WellFormed(s) && Entry(dir, name) in s.children
    requires var v := s.children[Entry(dir, name)]; IsDir(s, v) && v != h && IsEmptyDir(s, v)
    ensures var t := RmdirState(s, f, dir, name);
            && |EntriesTo(t.children, h)| == |EntriesTo(s.children, h)|
            && |SubdirEntries(t.children, t.kinds, h)| ==
               |SubdirEntries(s.children, s.kinds, h)| - if h == dir then 1 else 0
  {
    RmdirSets(s, f, dir, name, h);
    SetSizes(SubdirEntries(s.children, s.kinds, h), Entry(dir, name));
    assert Entry(dir, name) in SubdirEntries(s.children, s.kinds, h) <==> h == dir;
  }

  lemma RmdirLinks(s: State, drift: Drift, f: Faults, dir: Handle, name: Name, h: Handle)
    requires s.links.Keys == s.kinds.Keys && Entry(dir, name) in s.children && IsDir(s, dir)
    requires h in s.kinds && h != s.children[Entry(dir, name)] && Exact(s, drift, h)
    requires var t := RmdirState(s, f, dir, name);
             && |EntriesTo(t.children, h)| == |EntriesTo(s.children, h)|
             && |SubdirEntries(t.children, t.kinds, h)| ==
                |SubdirEntries(s.children, s.kinds, h)| - if h == dir then 1 else 0
    ensures Exact(RmdirState(s, f, dir, name), drift, h) <==> (h == dir ==> !f.linkReadFails)
  {
  }

  lemma RmdirKeeps(s: State, drift: Drift, f: Faults, dir: Handle, name: Name)
    requires Inv(s, drift) && Entry(dir, name) in s.children
    requires IsDir(s, s.children[Entry(dir, name)]) && s.children[Entry(dir, name)] != dir
    ensures Inv(RmdirState(s, f, dir, name), drift)
            <==> !f.linkReadFails && IsEmptyDir(s, s.children[Entry(dir, name)])
  {
    var v := s.children[Entry(dir, name)];
    if IsEmptyDir(s, v) {
      RmdirWellFormed(s, f, dir, name);
      RmdirAllLinks(s, drift, f, dir, name);
    } else {
      var e :| e in s.children && e.dir == v;
      DeleteNonEmptyDir(s, drift, RmdirState(s, f, dir, name), drift, v, e);
    }
  }

  lemma RmdirAllLinks(s: State, drift: Drift, f: Faults, dir: Handle, name: Name)
    requires Inv(s, drift) && Entry(dir, name) in s.children
    requires var v := s.children[Entry(dir, name)]; IsDir(s, v) && v != dir && IsEmptyDir(s, v)
    ensures LinksExact(RmdirState(s, f, dir, name), drift) <==> !f.linkReadFails
  {
    var t := RmdirState(s, f, dir, name);
    RmdirRows(s, f, dir, name);
    forall h | h in t.kinds ensures Exact(t, drift, h) <==> (h == dir ==> !f.linkReadFails) {
      assert Exact(s, drift, h);
      RmdirSizes(s, f, dir, name, h);
      RmdirLinks(s, drift, f, dir, name, h);
    }
    assert dir in t.kinds;
  }

  // ---- rename ----

  /** A rename that reaches its transaction and commits. */
  ghost predicate CanRename(s: State, from: Entry, to: Entry) {
    && from != to && from in s.children && s.children[from] in s.kinds && IsDir(s, to.dir)
    && (to in s.children ==>
          && s.children[to] in s.kinds
          && (IsDir(s, s.children[to]) <==> IsDir(s, s.children[from]))
          && (IsDir(s, s.children[to]) ==> s.children[to] != from.dir && s.children[to] != to.dir))
  }

  predicate Replaces(s: State, to: Entry) {
    to in s.children && IsDir(s, s.children[to])
  }

  /** The destination directory, if one is replaced, is empty. */
  predicate TargetEmpty(s: State, to: Entry) {
    Replaces(s, to) ==> IsEmptyDir(s, s.children[to])
  }

  function RenameDrift(s: State, drift: Drift, to: Entry): Drift {
    if Replaces(s, to) then drift[to.dir := DriftOf(drift, to.dir) + 1] else drift
  }

  lemma RenameChildren(s: State, from: Entry, to: Entry)
    requires CanRename(s, from, to) && TargetEmpty(s, to)
    ensures RenameState(s, from, to).children == (s.children - {from, to})[to := s.children[from]]
  {
    if Replaces(s, to) {
      DeleteEmptyDir(s, s.children[to]);
    }
  }

  /** The rows, edges and root after a rename. */
  lemma RenameRows(s: State, from: Entry, to: Entry)
    requires CanRename(s, from, to)
    ensures var t := RenameState(s, from, to);
            && t.root == s.root
            && t.kinds == (if Replaces(s, to) then s.kinds - {s.children[to]} else s.kinds)
            && t.parents == (var p := if Replaces(s, to) then s.parents - {s.children[to]} else s.parents;
                             if from.dir != to.dir then p[s.children[from] := to.dir] else p)
  {
  }

  /** The count of one surviving row after a rename. */
  lemma RenameLinkCount(s: State, from: Entry, to: Entry, h: Handle)
    requires CanRename(s, from, to) && s.links.Keys == s.kinds.Keys && IsDir(s, from.dir)
    requires h in s.kinds && (Replaces(s, to) ==> h != s.children[to])
    ensures var n := LinkCount(s, h);
            var dotdot := from.dir != to.dir && IsDir(s, s.children[from]);
            LinkCount(RenameState(s, from, to), h) ==
              if to in s.children && h == s.children[to] then (if n > 1 then n - 1 else 0)
              else if dotdot && h == from.dir then (if n > 0 then n - 1 else 0)
              else if dotdot && h == to.dir then n + 1
              else n
  {
  }

  lemma RenameLinkKeys(s: State, from: Entry, to: Entry)
    requires CanRename(s, from, to) && s.links.Keys == s.kinds.Keys && IsDir(s, from.dir)
    ensures var t := RenameState(s, from, to); t.links.Keys == t.kinds.Keys
  {
  }

  lemma RenameHasEntry(s: State, from: Entry, to: Entry, d: Handle)
    requires WellFormed(s) && CanRename(s, from, to) && TargetEmpty(s, to)
    requires IsDir(s, d) && d != s.root && (Replaces(s, to) ==> d != s.children[to])
    ensures HasEntry(RenameState(s, from, to), d)
  {
    var t := RenameState(s, from, to);
    RenameChildren(s, from, to);
    assert HasEntry(s, d);
    var e :| e in s.children && s.children[e] == d;
    assert t.children[to] == s.children[from];
    assert d != s.children[from] ==> e in t.children && t.children[e] == d;
  }

  lemma RenameEntryLive(s: State, from: Entry, to: Entry, e: Entry)
    requires EntriesLive(s) && DirEntriesUnique(s) && CanRename(s, from, to) && TargetEmpty(s, to)
    ensures var t := RenameState(s, from, to);
            e in t.children ==> IsDir(t, e.dir) && t.children[e] in t.kinds && t.children[e] != t.root
  {
    RenameChildren(s, from, to);
    RenameRows(s, from, to);
    var x := if e == to then from else e;
    assert e in RenameState(s, from, to).children ==> x in s.children;
  }

  lemma RenameEntriesLive(s: State, from: Entry, to: Entry)
    requires EntriesLive(s) && DirEntriesUnique(s) && CanRename(s, from, to) && TargetEmpty(s, to)
    ensures EntriesLive(RenameState(s, from, to))
  {
    var t := RenameState(s, from, to);
    forall e | e in t.children ensures IsDir(t, e.dir) && t.children[e] in t.kinds && t.children[e] != t.root {
      RenameEntryLive(s, from, to, e);
    }
  }

  lemma RenameUnique(s: State, from: Entry, to: Entry)
    requires WellFormed(s) && CanRename(s, from, to) && TargetEmpty(s, to)
    ensures DirEntriesUnique(RenameState(s, from, to))
  {
    var t := RenameState(s, from, to);
    RenameChildren(s, from, to);
    RenameRows(s, from, to);
    forall e, e' | e in t.children && e' in t.children && t.children[e] == t.children[e'] && IsDir(t, t.children[e])
      ensures e == e'
    {
      var x := if e == to then from else e;
      var x' := if e' == to then from else e';
      assert x in s.children && x' in s.children && s.children[x] == s.children[x'];
    }
  }

  lemma RenameWellFormed(s: State, from: Entry, to: Entry)
    requires WellFormed(s) && CanRename(s, from, to) && TargetEmpty(s, to)
    ensures WellFormed(RenameState(s, from, to))
  {
    var t := RenameState(s, from, to);
    RenameRows(s, from, to);
    RenameLinkKeys(s, from, to);
    RenameEntriesLive(s, from, to);
    RenameUnique(s, from, to);
    forall d | IsDir(t, d) && d != t.root ensures HasEntry(t, d) {
      RenameHasEntry(s, from, to, d);
    }
  }

  lemma RenameSets(s: State, from: Entry, to: Entry, h: Handle)
    requires WellFormed(s) && CanRename(s, from, to) && TargetEmpty(s, to)
    ensures var t := RenameState(s, from, to);
            && EntriesTo(t.children, h) ==
               EntriesTo(s.children, h) - {from, to} + (if h == s.children[from] then {to} else {})
            && SubdirEntries(t.children, t.kinds, h) ==
               SubdirEntries(s.children, s.kinds, h) - {from, to}
               + (if h == to.dir && IsDir(s, s.children[from]) then {to} else {})
  {
    RenameChildren(s, from, to);
    MovedEntry(s.children, s.kinds, from, to, h);
    RenameKinds(s, from, to);
    SubdirsReframed(RenameState(s, from, to).children, s.kinds, RenameState(s, from, to).kinds, h);
  }

  /** Both sets when an entry moves, whatever the target was. */
  lemma MovedEntry(c: map<Entry, Handle>, k: map<Handle, Kind>, from: Entry, to: Entry, h: Handle)
    requires from in c
    ensures var d := (c - {from, to})[to := c[from]];
            && EntriesTo(d, h) == EntriesTo(c, h) - {from, to} + (if h == c[from] then {to} else {})
            && SubdirEntries(d, k, h) == SubdirEntries(c, k, h) - {from, to}
               + (if h == to.dir && c[from] in k && k[c[from]] == Directory then {to} else {})
  {
    var rest := c - {from, to};
    assert EntriesTo(rest, h) == EntriesTo(c, h) - {from, to};
    EntriesAdded(rest, to, c[from], h);
    assert SubdirEntries(rest, k, h) == SubdirEntries(c, k, h) - {from, to};
    SubdirsAdded(rest, k, to, c[from], h);
  }

  /** Every entry after a rename still names a row of the same kind. */
  lemma RenameKinds(s: State, from: Entry, to: Entry)
    requires WellFormed(s) && CanRename(s, from, to) && TargetEmpty(s, to)
    ensures var t := RenameState(s, from, to);
            forall e :: e in t.children ==> t.children[e] in s.kinds && t.children[e] in t.kinds
                                            && s.kinds[t.children[e]] == t.kinds[t.children[e]]
  {
    RenameRows(s, from, to);
    RenameEntriesLive(s, from, to);
  }

  lemma RenameSizes(s: State, from: Entry, to: Entry, h: Handle)
    requires WellFormed(s) && CanRename(s, from, to) && TargetEmpty(s, to)
    ensures RenameSizesMove(s, from, to, h)
  {
    RenameSets(s, from, to, h);
    var ent := EntriesTo(s.children, h);
    assert from in ent <==> h == s.children[from];
    assert to in ent <==> to in s.children && h == s.children[to];
    Removed2(ent, from, to);
    var sub := SubdirEntries(s.children, s.kinds, h);
    assert from in sub <==> (h == from.dir && IsDir(s, s.children[from]));
    assert to in sub <==> (h == to.dir && Replaces(s, to));
    Removed2(sub, from, to);
  }

  ghost predicate RenameSizesMove(s: State, from: Entry, to: Entry, h: Handle)
    requires CanRename(s, from, to)
  {
    var t := RenameState(s, from, to);
    && |EntriesTo(t.children, h)| ==
       |EntriesTo(s.children, h)| - (if to in s.children && h == s.children[to] then 1 else 0)
    && |SubdirEntries(t.children, t.kinds, h)| ==
       |SubdirEntries(s.children, s.kinds, h)|
       + (if IsDir(s, s.children[from])
          then (if h == to.dir then 1 else 0) - (if h == from.dir then 1 else 0) else 0)
       - (if h == to.dir && Replaces(s, to) then 1 else 0)
  }

  lemma RenameLinks(s: State, drift: Drift, from: Entry, to: Entry, h: Handle)
    requires CanRename(s, from, to) && s.links.Keys == s.kinds.Keys && IsDir(s, from.dir) && Exact(s, drift, h)
    requires h in s.kinds && (Replaces(s, to) ==> h != s.children[to]) && RenameSizesMove(s, from, to, h)
    ensures Exact(RenameState(s, from, to), RenameDrift(s, drift, to), h)
  {
    RenameRows(s, from, to);
    RenameLinkCount(s, from, to, h);
    if to in s.children && h == s.children[to] {
      assert to in EntriesTo(s.children, h);
    }
  }

  lemma Removed2(a: set<Entry>, x: Entry, y: Entry)
    requires x != y
    ensures |a - {x, y}| == |a| - (if x in a then 1 else 0) - (if y in a then 1 else 0)
    ensures |a - {x, y} + {y}| == |a| - (if x in a then 1 else 0) + (if y in a then 0 else 1)
  {
    assert a - {x, y} == (a - {x}) - {y};
    assert y !in a - {x, y};
  }

  /** A rename keeps the invariant, its drift term counting a replaced
      directory, exactly when the replaced directory was empty. */
  lemma RenameKeeps(s: State, drift: Drift, from: Entry, to: Entry)
    requires Inv(s, drift) && CanRename(s, from, to)
    ensures Inv(RenameState(s, from, to), RenameDrift(s, drift, to)) <==> TargetEmpty(s, to)
  {
    var t := RenameState(s, from, to);
    var drift' := RenameDrift(s, drift, to);
    if TargetEmpty(s, to) {
      RenameWellFormed(s, from, to);
      forall h ensures Exact(t, drift', h) {
        assert Exact(s, drift, h);
        if h in t.kinds {
          RenameRows(s, from, to);
          RenameSizes(s, from, to, h);
          RenameLinks(s, drift, from, to, h);
        }
      }
    } else {
      var dst := s.children[to];
      var e :| e in s.children && e.dir == dst;
      RenameOverNonEmpty(s, drift, from, to, e, drift');
    }
  }

  lemma RenameOverNonEmpty(s: State, drift: Drift, from: Entry, to: Entry, e: Entry, drift': Drift)
    requires Inv(s, drift) && CanRename(s, from, to) && Replaces(s, to)
    requires e in s.children && e.dir == s.children[to]
    ensures !Inv(RenameState(s, from, to), drift')
  {
    RenameRows(s, from, to);
    RenameLinkCount(s, from, to, s.children[e]);
    DeleteNonEmptyDir(s, drift, RenameState(s, from, to), drift', s.children[to], e);
  }

  // ---- every step, every run ----

  lemma RenameReachesTransaction(s: State, drift: Drift, c: Call)
    requires c.op.Rename? && c.op.from != c.op.to && Succeeds(s, c)
    ensures CanRename(s, c.op.from, c.op.to)
    ensures Next(s, c) == RenameState(s, c.op.from, c.op.to)
    ensures NextDrift(s, drift, c) == RenameDrift(s, drift, c.op.to)
    ensures Harmless(s, c) <==> TargetEmpty(s, c.op.to)
  {
  }

  lemma RenameStep(s: State, drift: Drift, c: Call)
    requires Inv(s, drift) && c.op.Rename? && c.op.from != c.op.to && Succeeds(s, c)
    ensures Inv(Next(s, c), NextDrift(s, drift, c)) <==> Harmless(s, c)
  {
    RenameReachesTransaction(s, drift, c);
    RenameKeeps(s, drift, c.op.from, c.op.to);
  }

  /** One call keeps the invariant exactly when the fault it meets is harmless. */
  lemma StepKeepsInv(s: State, drift: Drift, c: Call)
    requires Inv(s, drift) && FreshHandle(s, c)
    ensures Inv(Next(s, c), NextDrift(s, drift, c)) <==> Harmless(s, c)
  {
    if Succeeds(s, c) {
      match c.op
      case Create(dir, name, kind, newId) => CreateKeeps(s, drift, c.faults, dir, name, kind, newId);
      case Link(dir, name, target) => LinkKeeps(s, drift, c.faults, dir, name, target);
      case Unlink(dir, name) => UnlinkKeeps(s, drift, c.faults, dir, name);
      case Rmdir(dir, name) => RmdirKeeps(s, drift, c.faults, dir, name);
      case Rename(from, to) =>
        if from != to {
          RenameStep(s, drift, c);
        }
    }
  }

  function Run(s: State, calls: seq<Call>): State
    decreases |calls|
  {
    if calls == [] then s else Run(Next(s, calls[0]), calls[1..])
  }

  function RunDrift(s: State, drift: Drift, calls: seq<Call>): Drift
    decreases |calls|
  {
    if calls == [] then drift else RunDrift(Next(s, calls[0]), NextDrift(s, drift, calls[0]), calls[1..])
  }

  /** Every call of the run gets a fresh handle and meets no harmful fault. */
  ghost predicate RunHarmless(s: State, calls: seq<Call>)
    decreases |calls|
  {
    calls != [] ==>
      && FreshHandle(s, calls[0]) && Harmless(s, calls[0])
      && RunHarmless(Next(s, calls[0]), calls[1..])
  }

  /** The link-count theorem: at the end of any run, each non-directory counts
      the entries naming it, and each directory counts 2, its subdirectories and
      the directories that renames replaced in it. */
  lemma {:induction false} RunKeepsInv(s: State, drift: Drift, calls: seq<Call>)
    requires Inv(s, drift) && RunHarmless(s, calls)
    ensures Inv(Run(s, calls), RunDrift(s, drift, calls))
    decreases |calls|
  {
    if calls != [] {
      StepKeepsInv(s, drift, calls[0]);
      RunKeepsInv(Next(s, calls[0]), NextDrift(s, drift, calls[0]), calls[1..]);
    }
  }
}
