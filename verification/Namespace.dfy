/** The directory namespace: entries, parent edges and link counts, as values.

    Every operation is a function from a state to an `Outcome`.  The class in
    NamespaceStore.dfy performs the same operations write by write inside a
    transaction and is proved to compute these functions.  */
module Namespace {

  import opened Common

  type Handle = nat
  type Name = string

  const MAX_NAME_LEN := 255

  datatype Kind = Directory | NonDirectory

  datatype Entry = Entry(dir: Handle, name: Name)

  datatype Error =
    | NotFound | NotDirectory | IsDirectory | AlreadyExists
    | NotEmpty | AccessDenied | InvalidName | StoreFailure

  datatype State = State(
    root: Handle,
    kinds: map<Handle, Kind>,
    children: map<Entry, Handle>,
    parents: map<Handle, Handle>,
    links: map<Handle, nat>)

  datatype Outcome = Done(state: State) | Failed(error: Error)

  /** What goes wrong around one call: the permission verdict, a failing
      directory listing, a failing link-count read. */
  datatype Faults = Faults(denied: bool, listFails: bool, linkReadFails: bool)

  predicate ValidName(n: Name) {
    && n != "" && n != "." && n != ".."
    && '/' !in n && '\0' !in n
    && |n| <= MAX_NAME_LEN
  }

  function InitialLinks(k: Kind): nat {
    if k == Directory then 2 else 1
  }

  /** GetLinkCount: an untracked handle reads as 0. */
  function LinkCount(s: State, h: Handle): nat {
    if h in s.links then s.links[h] else 0
  }

  predicate IsDir(s: State, h: Handle) {
    h in s.kinds && s.kinds[h] == Directory
  }

  predicate IsEmptyDir(s: State, h: Handle) {
    forall e :: e in s.children ==> e.dir != h
  }

  /** The first check of every operation: the name and the parent directory. */
  function ParentError(s: State, dir: Handle, name: Name): Option<Error> {
    if !ValidName(name) then Some(InvalidName)
    else if dir !in s.kinds then Some(NotFound)
    else if s.kinds[dir] != Directory then Some(NotDirectory)
    else None
  }

  // ---- create, mkdir, symlink, mknod ----

  function CreateState(s: State, f: Faults, dir: Handle, name: Name, kind: Kind, newId: Handle): State {
    var l := s.links[newId := InitialLinks(kind)];
    s.(kinds := s.kinds[newId := kind],
       children := s.children[Entry(dir, name) := newId],
       parents := s.parents[newId := dir],
       links := if kind == Directory && !f.linkReadFails then l[dir := LinkCount(s, dir) + 1] else l)
  }

  function CreateOutcome(s: State, f: Faults, dir: Handle, name: Name, kind: Kind, newId: Handle): Outcome {
    var err := ParentError(s, dir, name);
    if err.Some? then Failed(err.value)
    else if f.denied then Failed(AccessDenied)
    else if Entry(dir, name) in s.children then Failed(AlreadyExists)
    else Done(CreateState(s, f, dir, name, kind, newId))
  }

  // ---- hard link ----

  /** A failed read of the target's count is ignored and counts as 0. */
  function LinkState(s: State, f: Faults, dir: Handle, name: Name, target: Handle): State {
    var n := if f.linkReadFails then 0 else LinkCount(s, target);
    s.(children := s.children[Entry(dir, name) := target], links := s.links[target := n + 1])
  }

  function LinkOutcome(s: State, f: Faults, dir: Handle, name: Name, target: Handle): Outcome {
    var err := ParentError(s, dir, name);
    if err.Some? then Failed(err.value)
    else if f.denied then Failed(AccessDenied)
    else if target !in s.kinds then Failed(NotFound)
    else if s.kinds[target] == Directory then Failed(IsDirectory)
    else if Entry(dir, name) in s.children then Failed(AlreadyExists)
    else Done(LinkState(s, f, dir, name, target))
  }

  // ---- unlink ----

  /** A failed read of the count is taken as 1, so the last link. */
  function UnlinkState(s: State, f: Faults, dir: Handle, name: Name): State
    requires Entry(dir, name) in s.children
  {
    var h := s.children[Entry(dir, name)];
    var n := if f.linkReadFails then 1 else LinkCount(s, h);
    s.(children := s.children - {Entry(dir, name)},
       links := s.links[h := if n > 1 then n - 1 else 0])
  }

  function UnlinkOutcome(s: State, f: Faults, dir: Handle, name: Name): Outcome {
    var err := ParentError(s, dir, name);
    if err.Some? then Failed(err.value)
    else if Entry(dir, name) !in s.children then Failed(NotFound)
    else
      var h := s.children[Entry(dir, name)];
      if h !in s.kinds then Failed(NotFound)
      else if s.kinds[h] == Directory then Failed(IsDirectory)
      else if f.denied then Failed(AccessDenied)
      else Done(UnlinkState(s, f, dir, name))
  }

  // ---- rmdir ----

  /** DeleteFile: the row, its parent edge, its entries and its count all go. */
  function DeleteFile(s: State, h: Handle): State {
    s.(kinds := s.kinds - {h},
       parents := s.parents - {h},
       children := map e | e in s.children && e.dir != h :: s.children[e],
       links := s.links - {h})
  }

  function Decremented(l: map<Handle, nat>, h: Handle): map<Handle, nat> {
    if h in l && l[h] > 0 then l[h := l[h] - 1] else l
  }

  function RmdirState(s: State, f: Faults, dir: Handle, name: Name): State
    requires Entry(dir, name) in s.children
  {
    var t := DeleteFile(s, s.children[Entry(dir, name)]);
    t.(children := t.children - {Entry(dir, name)},
       links := if f.linkReadFails then t.links else Decremented(t.links, dir))
  }

  function RmdirOutcome(s: State, f: Faults, dir: Handle, name: Name): Outcome {
    var err := ParentError(s, dir, name);
    if err.Some? then Failed(err.value)
    else if Entry(dir, name) !in s.children then Failed(NotFound)
    else
      var h := s.children[Entry(dir, name)];
      if h !in s.kinds then Failed(NotFound)
      else if s.kinds[h] != Directory then Failed(NotDirectory)
      else if f.denied then Failed(AccessDenied)
      else if !f.listFails && !IsEmptyDir(s, h) then Failed(NotEmpty)
      else if h == dir then Failed(StoreFailure)
      else Done(RmdirState(s, f, dir, name))
  }

  // ---- rename ----

  /** The overwritten destination goes: a directory row is deleted, any other
      node loses one link; then its entry is removed. */
  function ClobberState(s: State, to: Entry): State
    requires to in s.children
  {
    var dst := s.children[to];
    var t := if IsDir(s, dst) then DeleteFile(s, dst)
             else s.(links := s.links[dst := if LinkCount(s, dst) > 1 then LinkCount(s, dst) - 1 else 0]);
    t.(children := t.children - {to})
  }

  /** The entry moves; a directory changing parents takes its ".." along. */
  function RelinkState(s: State, from: Entry, to: Entry, src: Handle, kind: Kind): State {
    var t := s.(children := (s.children - {from})[to := src]);
    if from.dir == to.dir then t
    else
      var u := t.(parents := t.parents[src := to.dir]);
      if kind != Directory then u
      else
        var l := Decremented(u.links, from.dir);
        u.(links := l[to.dir := (if to.dir in l then l[to.dir] else 0) + 1])
  }

  function RenameState(s: State, from: Entry, to: Entry): State
    requires from in s.children && s.children[from] in s.kinds
  {
    var src := s.children[from];
    RelinkState(if to in s.children then ClobberState(s, to) else s, from, to, src, s.kinds[src])
  }

  /** The compatibility checks on an existing destination. */
  function TargetError(s: State, f: Faults, srcKind: Kind, to: Entry): Option<Error> {
    if to !in s.children then None
    else
      var dst := s.children[to];
      if dst !in s.kinds then Some(NotFound)
      else if srcKind == Directory then
        if s.kinds[dst] != Directory then Some(NotDirectory)
        else if !f.listFails && !IsEmptyDir(s, dst) then Some(NotEmpty)
        else None
      else if s.kinds[dst] == Directory then Some(IsDirectory)
      else None
  }

  /** Inside the transaction: a failing link-count read rolls back, and so does
      an entry that went away with the deleted destination directory. */
  predicate RenameAborts(s: State, f: Faults, from: Entry, to: Entry)
    requires from in s.children && s.children[from] in s.kinds
  {
    || (f.linkReadFails && to in s.children && !IsDir(s, s.children[to]))
    || (f.linkReadFails && from.dir != to.dir && IsDir(s, s.children[from]))
    || (to in s.children && IsDir(s, s.children[to]) && s.children[to] in {from.dir, to.dir})
  }

  /** The checks before the transaction; a rename of an entry to itself passes. */
  function RenameError(s: State, f: Faults, from: Entry, to: Entry): Option<Error> {
    if !ValidName(from.name) || !ValidName(to.name) then Some(InvalidName)
    else if from == to then None
    else
      var err := ParentError(s, from.dir, from.name);
      var err' := ParentError(s, to.dir, to.name);
      if err.Some? then err
      else if err'.Some? then err'
      else if f.denied then Some(AccessDenied)
      else if from !in s.children || s.children[from] !in s.kinds then Some(NotFound)
      else TargetError(s, f, s.kinds[s.children[from]], to)
  }

  function RenameOutcome(s: State, f: Faults, from: Entry, to: Entry): Outcome {
    var err := RenameError(s, f, from, to);
    if err.Some? then Failed(err.value)
    else if from == to then Done(s)
    else if RenameAborts(s, f, from, to) then Failed(StoreFailure)
    else Done(RenameState(s, from, to))
  }

  // ---- steps and runs ----

  datatype Op =
    | Create(dir: Handle, name: Name, kind: Kind, newId: Handle)
    | Link(dir: Handle, name: Name, target: Handle)
    | Unlink(dir: Handle, name: Name)
    | Rmdir(dir: Handle, name: Name)
    | Rename(from: Entry, to: Entry)

  /** One call: the operation, the faults it meets, and whether its transaction
      commits (a failing store write or commit rolls everything back). */
  datatype Call = Call(op: Op, faults: Faults, commits: bool)

  function Perform(s: State, c: Call): Outcome {
    match c.op
    case Create(dir, name, kind, newId) => CreateOutcome(s, c.faults, dir, name, kind, newId)
    case Link(dir, name, target) => LinkOutcome(s, c.faults, dir, name, target)
    case Unlink(dir, name) => UnlinkOutcome(s, c.faults, dir, name)
    case Rmdir(dir, name) => RmdirOutcome(s, c.faults, dir, name)
    case Rename(from, to) => RenameOutcome(s, c.faults, from, to)
  }

  /** The call takes effect. */
  predicate Succeeds(s: State, c: Call) {
    c.commits && Perform(s, c).Done?
  }

  function Next(s: State, c: Call): State {
    if Succeeds(s, c) then Perform(s, c).state else s
  }

  /** A directory is renamed over an existing directory. */
  predicate ReplacesDir(s: State, c: Call) {
    && Succeeds(s, c) && c.op.Rename? && c.op.from != c.op.to
    && c.op.to in s.children && IsDir(s, s.children[c.op.to])
  }

  /** Link-count drift: how many directories were replaced by rename inside each
      directory since it was created. */
  type Drift = map<Handle, nat>

  function DriftOf(d: Drift, h: Handle): nat {
    if h in d then d[h] else 0
  }

  function NextDrift(s: State, d: Drift, c: Call): Drift {
    if Succeeds(s, c) && c.op.Create? then d[c.op.newId := 0]
    else if ReplacesDir(s, c) then d[c.op.to.dir := DriftOf(d, c.op.to.dir) + 1]
    else d
  }

  // ---- the invariant ----

  ghost function EntriesTo(c: map<Entry, Handle>, h: Handle): set<Entry> {
    set e | e in c && c[e] == h
  }

  ghost function SubdirEntries(c: map<Entry, Handle>, k: map<Handle, Kind>, d: Handle): set<Entry> {
    set e | e in c && e.dir == d && c[e] in k && k[c[e]] == Directory
  }

  ghost predicate HasEntry(s: State, h: Handle) {
    exists e :: e in s.children && s.children[e] == h
  }

  /** Entries live in directories and name live rows, never the root. */
  ghost predicate EntriesLive(s: State) {
    forall e :: e in s.children ==> IsDir(s, e.dir) && s.children[e] in s.kinds && s.children[e] != s.root
  }

  /** A directory has at most one entry, and its parent edge names the holder. */
  ghost predicate DirEntriesUnique(s: State) {
    && (forall e :: e in s.children && IsDir(s, s.children[e]) ==>
          s.children[e] in s.parents && s.parents[s.children[e]] == e.dir)
    && (forall e, e' :: (e in s.children && e' in s.children && s.children[e] == s.children[e']
                         && IsDir(s, s.children[e])) ==> e == e')
  }

  /** Entries and rows fit together: together with the two predicates above,
      every directory but the root has exactly one entry. */
  ghost predicate WellFormed(s: State) {
    && IsDir(s, s.root) && s.root !in s.parents
    && s.links.Keys == s.kinds.Keys && s.parents.Keys <= s.kinds.Keys
    && EntriesLive(s) && DirEntriesUnique(s)
    && (forall d :: IsDir(s, d) && d != s.root ==> HasEntry(s, d))
  }

  /** The link count every live row must have. */
  ghost function ExactLinks(s: State, drift: Drift, h: Handle): nat
    requires h in s.kinds
  {
    if s.kinds[h] == Directory
    then 2 + |SubdirEntries(s.children, s.kinds, h)| + DriftOf(drift, h)
    else |EntriesTo(s.children, h)|
  }

  ghost predicate Exact(s: State, drift: Drift, h: Handle) {
    h in s.kinds ==> LinkCount(s, h) == ExactLinks(s, drift, h)
  }

  ghost predicate LinksExact(s: State, drift: Drift) {
    forall h :: Exact(s, drift, h)
  }

  ghost predicate Inv(s: State, drift: Drift) {
    WellFormed(s) && LinksExact(s, drift)
  }
}
