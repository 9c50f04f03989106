/** The namespace operations as the service performs them: checks against the
    committed state, then one transaction of single writes that either commits
    as a whole or rolls back. */
module NamespaceStore {
  import opened Common
  import opened Namespace

  /** A store transaction: reads see the writes already made; `budget`, when
      present, is how many more writes the store accepts before it fails. */
  class Transaction {
    var view: State
    var budget: Option<nat>

    constructor (committed: State, budget: Option<nat>)
      ensures view == committed && this.budget == budget
    {
      this.view := committed;
      this.budget := budget;
    }

    /** Whether the store accepts another write. */
    method Accepts() returns (ok: bool)
      modifies this`budget
      ensures old(budget).None? ==> ok && budget.None?
    {
      ok := budget.None? || budget.value > 0;
      if budget.Some? && budget.value > 0 {
        budget := Some(budget.value - 1);
      }
    }

    method SetChild(e: Entry, h: Handle) returns (ok: bool)
      modifies this
      ensures old(budget).None? ==> ok && budget.None?
      ensures ok ==> view == old(view).(children := old(view).children[e := h])
    {
      ok := Accepts();
      if ok { view := view.(children := view.children[e := h]); }
    }

    /** Fails on an entry that does not exist. */
    method DeleteChild(e: Entry) returns (ok: bool)
      modifies this
      ensures old(budget).None? ==> budget.None? && (ok <==> e in old(view).children)
      ensures ok ==> e in old(view).children && view == old(view).(children := old(view).children - {e})
    {
      ok := Accepts();
      if e !in view.children { ok := false; }
      if ok { view := view.(children := view.children - {e}); }
    }

    method SetParent(h: Handle, p: Handle) returns (ok: bool)
      modifies this
      ensures old(budget).None? ==> ok && budget.None?
      ensures ok ==> view == old(view).(parents := old(view).parents[h := p])
    {
      ok := Accepts();
      if ok { view := view.(parents := view.parents[h := p]); }
    }

    method SetLinkCount(h: Handle, n: nat) returns (ok: bool)
      modifies this
      ensures old(budget).None? ==> ok && budget.None?
      ensures ok ==> view == old(view).(links := old(view).links[h := n])
    {
      ok := Accepts();
      if ok { view := view.(links := view.links[h := n]); }
    }

    method PutFile(h: Handle, k: Kind) returns (ok: bool)
      modifies this
      ensures old(budget).None? ==> ok && budget.None?
      ensures ok ==> view == old(view).(kinds := old(view).kinds[h := k])
    {
      ok := Accepts();
      if ok { view := view.(kinds := view.kinds[h := k]); }
    }

    method DropFile(h: Handle) returns (ok: bool)
      modifies this
      ensures old(budget).None? ==> ok && budget.None?
      ensures ok ==> view == DeleteFile(old(view), h)
    {
      ok := Accepts();
      if ok { view := DeleteFile(view, h); }
    }
  }

  /** The metadata service over one share's store. */
  class Service {
    var state: State

    constructor (s: State)
      ensures state == s
    {
      state := s;
    }

    method CreateEntry(f: Faults, dir: Handle, name: Name, kind: Kind, newId: Handle, budget: Option<nat>)
      returns (err: Option<Error>)
      modifies this
      ensures err.None? ==> CreateOutcome(old(state), f, dir, name, kind, newId) == Done(state)
      ensures err.Some? ==> state == old(state)
      ensures budget.None? && err.Some? ==> CreateOutcome(old(state), f, dir, name, kind, newId) == Failed(err.value)
    {
      err := ParentError(state, dir, name);
      if err.Some? { return; }
      if f.denied { return Some(AccessDenied); }
      if Entry(dir, name) in state.children { return Some(AlreadyExists); }
      var tx := new Transaction(state, budget);
      var ok := tx.PutFile(newId, kind);
      if !ok { return Some(StoreFailure); }
      ok := tx.SetLinkCount(newId, InitialLinks(kind));
      if !ok { return Some(StoreFailure); }
      ok := tx.SetParent(newId, dir);
      if !ok { return Some(StoreFailure); }
      ok := tx.SetChild(Entry(dir, name), newId);
      if !ok { return Some(StoreFailure); }
      if kind == Directory && !f.linkReadFails {
        ok := tx.SetLinkCount(dir, LinkCount(state, dir) + 1);
        if !ok { return Some(StoreFailure); }
      }
      state := tx.view;
      return None;
    }

    method CreateHardLink(f: Faults, dir: Handle, name: Name, target: Handle, budget: Option<nat>)
      returns (err: Option<Error>)
      modifies this
      ensures err.None? ==> LinkOutcome(old(state), f, dir, name, target) == Done(state)
      ensures err.Some? ==> state == old(state)
      ensures budget.None? && err.Some? ==> LinkOutcome(old(state), f, dir, name, target) == Failed(err.value)
    {
      err := ParentError(state, dir, name);
      if err.Some? { return; }
      if f.denied { return Some(AccessDenied); }
      if target !in state.kinds { return Some(NotFound); }
      if state.kinds[target] == Directory { return Some(IsDirectory); }
      if Entry(dir, name) in state.children { return Some(AlreadyExists); }
      var tx := new Transaction(state, budget);
      var ok := tx.SetChild(Entry(dir, name), target);
      if !ok { return Some(StoreFailure); }
      var n := if f.linkReadFails then 0 else LinkCount(tx.view, target);
      ok := tx.SetLinkCount(target, n + 1);
      if !ok { return Some(StoreFailure); }
      state := tx.view;
      return None;
    }

    method RemoveFile(f: Faults, dir: Handle, name: Name, budget: Option<nat>)
      returns (err: Option<Error>)
      modifies this
      ensures err.None? ==> UnlinkOutcome(old(state), f, dir, name) == Done(state)
      ensures err.Some? ==> state == old(state)
      ensures budget.None? && err.Some? ==> UnlinkOutcome(old(state), f, dir, name) == Failed(err.value)
    {
      err := ParentError(state, dir, name);
      if err.Some? { return; }
      if Entry(dir, name) !in state.children { return Some(NotFound); }
      var h := state.children[Entry(dir, name)];
      if h !in state.kinds { return Some(NotFound); }
      if state.kinds[h] == Directory { return Some(IsDirectory); }
      if f.denied { return Some(AccessDenied); }
      var tx := new Transaction(state, budget);
      var n := if f.linkReadFails then 1 else LinkCount(tx.view, h);
      var ok;
      if n > 1 {
        ok := tx.SetLinkCount(h, n - 1);
      } else {
        ok := tx.SetLinkCount(h, 0);
      }
      if !ok { return Some(StoreFailure); }
      ok := tx.DeleteChild(Entry(dir, name));
      if !ok { return Some(StoreFailure); }
      state := tx.view;
      return None;
    }

    method RemoveDirectory(f: Faults, dir: Handle, name: Name, budget: Option<nat>)
      returns (err: Option<Error>)
      modifies this
      ensures err.None? ==> RmdirOutcome(old(state), f, dir, name) == Done(state)
      ensures err.Some? ==> state == old(state)
      ensures budget.None? && err.Some? ==> RmdirOutcome(old(state), f, dir, name) == Failed(err.value)
    {
      err := ParentError(state, dir, name);
      if err.Some? { return; }
      if Entry(dir, name) !in state.children { return Some(NotFound); }
      var h := state.children[Entry(dir, name)];
      if h !in state.kinds { return Some(NotFound); }
      if state.kinds[h] != Directory { return Some(NotDirectory); }
      if f.denied { return Some(AccessDenied); }
      if !f.listFails && !IsEmptyDir(state, h) { return Some(NotEmpty); }
      var tx := new Transaction(state, budget);
      var ok := tx.DropFile(h);
      if !ok { return Some(StoreFailure); }
      ok := tx.DeleteChild(Entry(dir, name));
      if !ok { return Some(StoreFailure); }
      if !f.linkReadFails && LinkCount(tx.view, dir) > 0 {
        ok := tx.SetLinkCount(dir, LinkCount(tx.view, dir) - 1);
        if !ok { return Some(StoreFailure); }
      }
      state := tx.view;
      return None;
    }

    static predicate Removable(s: State, f: Faults, to: Entry)
      requires to in s.children
    {
      if IsDir(s, s.children[to]) then s.children[to] != to.dir else !f.linkReadFails
    }

    /** Inside Move's transaction: take the existing destination out. */
    method RemoveTarget(tx: Transaction, f: Faults, to: Entry) returns (ok: bool)
      requires to in tx.view.children
      modifies tx
      ensures ok ==> tx.view == ClobberState(old(tx.view), to)
      ensures old(tx.budget).None? ==> tx.budget.None?
      ensures ok ==> Removable(old(tx.view), f, to)
      ensures old(tx.budget).None? && Removable(old(tx.view), f, to) ==> ok
    {
      var dst := tx.view.children[to];
      if IsDir(tx.view, dst) {
        ok := tx.DropFile(dst);
      } else {
        if f.linkReadFails { return false; }
        var n := LinkCount(tx.view, dst);
        ok := tx.SetLinkCount(dst, if n > 1 then n - 1 else 0);
      }
      if !ok { return; }
      ok := tx.DeleteChild(to);
    }

    static predicate Relinkable(s: State, f: Faults, from: Entry, to: Entry, kind: Kind) {
      from in s.children && !(f.linkReadFails && from.dir != to.dir && kind == Directory)
    }

    /** Inside Move's transaction: move the entry and the ".." reference. */
    method Relink(tx: Transaction, f: Faults, from: Entry, to: Entry, src: Handle, kind: Kind) returns (ok: bool)
      requires from != to
      modifies tx
      ensures ok ==> tx.view == RelinkState(old(tx.view), from, to, src, kind)
      ensures ok ==> Relinkable(old(tx.view), f, from, to, kind)
      ensures old(tx.budget).None? && Relinkable(old(tx.view), f, from, to, kind) ==> ok
    {
      ok := tx.DeleteChild(from);
      if !ok { return; }
      ok := tx.SetChild(to, src);
      if !ok { return; }
      if from.dir != to.dir {
        ok := tx.SetParent(src, to.dir);
        if !ok { return; }
        if kind == Directory {
          if f.linkReadFails { return false; }
          if LinkCount(tx.view, from.dir) > 0 {
            ok := tx.SetLinkCount(from.dir, LinkCount(tx.view, from.dir) - 1);
            if !ok { return; }
          }
          ok := tx.SetLinkCount(to.dir, LinkCount(tx.view, to.dir) + 1);
        }
      }
    }

    /** Rename without a recycle bin; see Recycle.dfy for the bin. */
    method Move(f: Faults, from: Entry, to: Entry, budget: Option<nat>) returns (err: Option<Error>)
      modifies this
      ensures err.None? ==> RenameOutcome(old(state), f, from, to) == Done(state)
      ensures err.Some? ==> state == old(state)
      ensures budget.None? && err.Some? ==> RenameOutcome(old(state), f, from, to) == Failed(err.value)
    {
      if !ValidName(from.name) || !ValidName(to.name) { return Some(InvalidName); }
      if from == to { return None; }
      err := ParentError(state, from.dir, from.name);
      if err.Some? { return; }
      err := ParentError(state, to.dir, to.name);
      if err.Some? { return; }
      if f.denied { return Some(AccessDenied); }
      if from !in state.children || state.children[from] !in state.kinds { return Some(NotFound); }
      var src := state.children[from];
      var kind := state.kinds[src];
      err := TargetError(state, f, kind, to);
      if err.Some? { return; }
      var tx := new Transaction(state, budget);
      var ok;
      if to in tx.view.children {
        ok := RemoveTarget(tx, f, to);
        if !ok { return Some(StoreFailure); }
      }
      ok := Relink(tx, f, from, to, src, kind);
      if !ok { return Some(StoreFailure); }
      state := tx.view;
      return None;
    }
  }
}
