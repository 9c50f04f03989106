/** The recycle bin: a deleted or overwritten node is moved into the bin
    instead, stamped before the move, and Move and recycleNode call each other. */
module Recycle {
  import opened Common
  import opened Namespace
  import opened NamespaceTheorems
  import opened NamespaceEffects
  import opened RecycleBin
  import opened BinPath
  import Decimal

  const BIN_NAME: Name := "#recycle"
  const MAX_BIN_NAME_ATTEMPTS := 1000

  /** A share-relative path, split at its slashes, lies in the bin. */
  predicate InRecycle(rel: seq<Name>) {
    |rel| > 0 && rel[0] == BIN_NAME
  }

  /** The k-th name tried in the bin. */
  function Candidate(name: Name, nanos: nat, k: nat): Name {
    if k == 0 then name
    else if k == 1 then name + " (" + Decimal.Format(nanos) + ")"
    else name + " (" + Decimal.Format(nanos) + "-" + Decimal.Format(k - 1) + ")"
  }

  /** For instance, for a file named a deleted at 12. */
  lemma CandidateForms()
    ensures Candidate("a", 12, 0) == "a" && Candidate("a", 12, 1) == "a (12)" && Candidate("a", 12, 3) == "a (12-2)"
  {
  }

  lemma SameTail(a: string, b: string, c: string)
    requires a + b == a + c
    ensures b == c
  {
    assert b == (a + b)[|a|..];
    assert c == (a + c)[|a|..];
  }

  lemma CandidatesDistinct(name: Name, nanos: nat, j: nat, k: nat)
    requires Candidate(name, nanos, j) == Candidate(name, nanos, k)
    ensures j == k
  {
    var stem := name + " (" + Decimal.Format(nanos);
    if j >= 2 && k >= 2 {
      var a, b := Decimal.Format(j - 1), Decimal.Format(k - 1);
      assert Candidate(name, nanos, j) == (stem + "-") + (a + ")");
      assert Candidate(name, nanos, k) == (stem + "-") + (b + ")");
      SameTail(stem + "-", a + ")", b + ")");
      assert a == (a + ")")[..|a + ")"| - 1];
      assert b == (b + ")")[..|b + ")"| - 1];
      Decimal.FormatInjective(j - 1, k - 1);
    }
  }

  ghost function EntriesIn(s: State, dir: Handle): set<Entry> {
    set e | e in s.children && e.dir == dir
  }

  ghost function Tried(dir: Handle, name: Name, nanos: nat, n: nat): set<Entry> {
    set k | 0 <= k < n :: Entry(dir, Candidate(name, nanos, k))
  }

  lemma NotTriedYet(dir: Handle, name: Name, nanos: nat, n: nat)
    ensures Entry(dir, Candidate(name, nanos, n)) !in Tried(dir, name, nanos, n)
  {
    forall k: nat | k < n ensures Candidate(name, nanos, k) != Candidate(name, nanos, n) {
      if Candidate(name, nanos, k) == Candidate(name, nanos, n) {
        CandidatesDistinct(name, nanos, k, n);
      }
    }
  }

  lemma {:induction false} TriedSize(dir: Handle, name: Name, nanos: nat, n: nat)
    ensures |Tried(dir, name, nanos, n)| == n
  {
    if n == 0 {
      assert Tried(dir, name, nanos, n) == {};
    } else {
      TriedSize(dir, name, nanos, n - 1);
      var last := Entry(dir, Candidate(name, nanos, n - 1));
      assert Tried(dir, name, nanos, n) == Tried(dir, name, nanos, n - 1) + {last};
      NotTriedYet(dir, name, nanos, n - 1);
      SetSizes(Tried(dir, name, nanos, n - 1), last);
    }
  }

  lemma SubsetSize(a: set<Entry>, b: set<Entry>)
    requires a <= b
    ensures |a| <= |b|
  {
    assert b == a + (b - a);
  }

  /** The first of at most a thousand candidates that is free. */
  ghost predicate FirstFree(s: State, bin: Entry, name: Name, nanos: nat) {
    && bin !in s.children
    && exists k: nat ::
         && k < 1000 && bin.name == Candidate(name, nanos, k)
         && forall j: nat :: j < k ==> Entry(bin.dir, Candidate(name, nanos, j)) in s.children
  }

  /** freeBinName: the first free name, or proof that the directory is full. */
  method FreeBinName(s: State, dir: Handle, name: Name, nanos: nat) returns (found: Option<Name>)
    ensures found.Some? ==> FirstFree(s, Entry(dir, found.value), name, nanos)
    ensures found.None? ==> |EntriesIn(s, dir)| >= 1000
  {
    var attempt := 0;
    var candidate := name;
    while attempt < MAX_BIN_NAME_ATTEMPTS
      invariant 0 <= attempt <= MAX_BIN_NAME_ATTEMPTS
      invariant candidate == Candidate(name, nanos, attempt)
      invariant forall k :: 0 <= k < attempt ==> Entry(dir, Candidate(name, nanos, k)) in s.children
    {
      if Entry(dir, candidate) !in s.children {
        return Some(candidate);
      }
      if attempt == 0 {
        candidate := name + " (" + Decimal.Format(nanos) + ")";
      } else {
        candidate := name + " (" + Decimal.Format(nanos) + "-" + Decimal.Format(attempt) + ")";
      }
      attempt := attempt + 1;
    }
    assert Tried(dir, name, nanos, attempt) <= EntriesIn(s, dir);
    TriedSize(dir, name, nanos, attempt);
    SubsetSize(Tried(dir, name, nanos, attempt), EntriesIn(s, dir));
    return None;
  }

  /** Every step of a recycle that the store can refuse. */
  datatype Step =
    | Lookup | FindDir(depth: nat) | ReadDir(depth: nat) | MakeDir(depth: nat) | FindDirAgain(depth: nat)
    | FindName | Stamp | InnerCommit | OuterCommit | Rollback

  /** Permission is given and the store refuses nothing. */
  ghost predicate Calm(f: Faults, refused: Step -> bool) {
    !f.denied && forall step :: !refused(step)
  }

  /** The directory that mirrors the parent of a path inside the bin. */
  function MirrorPath(rel: seq<Name>): seq<Name>
    requires rel != []
  {
    ["#recycle"] + rel[..|rel| - 1]
  }

  /** The bin path can be made, if nothing is refused on the way. */
  ghost predicate CanMirror(s: State, rel: seq<Name>)
    requires rel != []
  {
    Housed(s) && Components(MirrorPath(rel)) && Passable(s, s.root, MirrorPath(rel))
  }

  /** A bin name in the mirrored directory: the first free one. */
  ghost predicate Mirrors(s: State, bin: Entry, rel: seq<Name>, nanos: nat)
    requires rel != []
  {
    Walk(s, s.root, MirrorPath(rel)) == Some(bin.dir) && FirstFree(s, bin, rel[|rel| - 1], nanos)
  }

  /** The mirrored directory holds a thousand entries. */
  ghost predicate MirrorFull(s: State, rel: seq<Name>)
    requires rel != []
  {
    var dir := Walk(s, s.root, MirrorPath(rel));
    dir.Some? && |EntriesIn(s, dir.value)| >= 1000
  }

  /** The victim sits under a name that was free before. */
  ghost predicate Binned(s: State, t: State, victim: Handle) {
    exists e :: e !in s.children && e in t.children && t.children[e] == victim
  }

  /** Handles for the directories a recycle may create: unused and distinct. */
  ghost predicate Supply(s: State, ids: seq<Handle>, rel: seq<Name>) {
    && 1 <= |rel| <= |ids|
    && (forall i :: 0 <= i < |ids| ==> ids[i] !in s.kinds)
    && (forall i, j :: 0 <= i < j < |ids| ==> ids[i] != ids[j])
  }

  /** The counts stay exact, unless a read or a listing failed on the way. */
  ghost predicate InvKept(f: Faults, s: State, drift: Drift, t: State, drift': Drift) {
    !f.linkReadFails && !f.listFails && Inv(s, drift) ==> Inv(t, drift')
  }

  ghost function DriftAfter(s: State, drift: Drift, from: Entry, to: Entry): Drift {
    if from == to then drift else RenameDrift(s, drift, to)
  }

  lemma PlainRename(s: State, drift: Drift, f: Faults, from: Entry, to: Entry)
    requires RenameOutcome(s, f, from, to).Done?
    ensures InvKept(f, s, drift, RenameOutcome(s, f, from, to).state, DriftAfter(s, drift, from, to))
  {
    if !f.linkReadFails && !f.listFails && Inv(s, drift) && from != to {
      var c := Call(Rename(from, to), f, true);
      RenameReachesTransaction(s, drift, c);
      RenameKeeps(s, drift, from, to);
    }
  }

  lemma RenameToFree(s: State, f: Faults, from: Entry, to: Entry)
    requires to !in s.children && RenameOutcome(s, f, from, to).Done?
    ensures var t := RenameOutcome(s, f, from, to).state;
            && Kept(s, t, {from})
            && (from != to ==> from !in t.children && to in t.children && t.children[to] == s.children[from])
  {
  }

  /** The bin path may have grown first; the move then lands on a free name. */
  lemma RecycledInto(s: State, m: State, t: State, at: Entry, bin: Entry)
    requires Kept(s, m, {}) && at in s.children && bin !in m.children
    requires Kept(m, t, {at}) && bin in t.children && t.children[bin] == m.children[at]
    ensures Kept(s, t, {at}) && Binned(s, t, s.children[at])
  {
  }

  /** Once the overwritten file is in the bin, the rename lands on a free name, and
      a count that cannot be read no longer matters.  The row of the renamed node is
      written as it was read before. */
  lemma RenameAfterRecycle(s: State, marks: set<Handle>, m: State, f: Faults, from: Entry, to: Entry, rel: seq<Name>)
    requires Recycles(s, f, from, to, rel, true)
    requires Kept(s, m, {to}) && to !in m.children && Binned(s, m, s.children[to])
    ensures CanRename(m, from, to) && TargetEmpty(m, to) && !RenameAborts(m, f, from, to)
    ensures var stamped := marks + {s.children[to]};
            && Overwritten(s, marks, m, stamped, from, to, Some(StoreFailure))
            && Overwritten(s, marks, RenameState(m, from, to),
                           WithStamp(stamped, s.children[from], s.children[from] in marks), from, to, None)
  {
    var t := RenameState(m, from, to);
    assert from in m.children && m.children[from] == s.children[from];
    var e :| e !in s.children && e in m.children && m.children[e] == s.children[to];
    assert e in t.children && t.children[e] == s.children[to];
  }

  class TrashService {
    var state: State
    var stamped: set<Handle>   // the rows carrying DeletedAt
    ghost var placed: set<Entry>

    constructor (s: State)
      ensures Snapshot() == Trash(s, {}, {})
    {
      state, stamped, placed := s, {}, {};
    }

    ghost function Snapshot(): Trash
      reads this
    {
      Trash(state, stamped, placed)
    }

    /** Resolve a child directory, creating it when it is absent or cannot be looked
        up.  What a second lookup finds after that is not checked to be a directory. */
    method EnsureChildDir(f: Faults, refused: Step -> bool, depth: nat, dir: Handle, name: Name, newId: Handle)
      returns (err: Option<Error>, h: Handle)
      requires newId !in state.kinds
      modifies this`state
      ensures Kept(old(state), state, {})
      ensures state.kinds.Keys <= old(state).kinds.Keys + {newId}
      ensures err.None? ==> Entry(dir, name) in state.children && state.children[Entry(dir, name)] == h
      ensures err.None? ==> IsDir(state, h) || (refused(FindDir(depth)) && Entry(dir, name) in old(state).children)
      ensures Calm(f, refused) && Component(name) && Open(old(state), dir, name) ==>
                err.None? && Stepped(old(state), state, dir, name, newId)
      ensures Growth(f, old(state), state)
    {
      h := newId;
      GrowthNone(f, state);
      if !refused(FindDir(depth)) && Entry(dir, name) in state.children {
        h := state.children[Entry(dir, name)];
        if refused(ReadDir(depth)) || h !in state.kinds { return Some(NotFound), h; }
        if state.kinds[h] != Directory { return Some(NotDirectory), h; }
        return None, h;
      }
      var r := CreateOutcome(state, f, dir, name, Directory, newId);
      if r.Failed? && r.error != AlreadyExists { return Some(r.error), h; }
      if r.Done? {
        if refused(MakeDir(depth)) { return Some(StoreFailure), h; }
        assert MadeDir(f, state, r.state, dir, name, newId);
        GrowthMore(f, state, state, r.state);
        state := r.state;
      }
      if refused(FindDirAgain(depth)) || Entry(dir, name) !in state.children { return Some(NotFound), h; }
      return None, state.children[Entry(dir, name)];
    }

    /** One directory further along the path. */
    method ExtendPath(f: Faults, refused: Step -> bool, ghost path: seq<Name>, i: nat, dir: Handle, name: Name,
                      newId: Handle, ghost calm: bool)
      returns (err: Option<Error>, h: Handle)
      requires newId !in state.kinds && i < |path| && path[i] == name && OnPath(state, path, i, dir, calm)
      requires calm ==> Calm(f, refused) && Components(path)
      modifies this`state
      ensures Growth(f, old(state), state) && state.kinds.Keys <= old(state).kinds.Keys + {newId}
      ensures if err.None? then OnPath(state, path, i + 1, h, calm) else !calm
    {
      err, h := EnsureChildDir(f, refused, i, dir, name, newId);
      ghost var e := Entry(dir, name);
      assert path[i..][0] == name;
      assert calm && e in old(state).children ==> Passable(old(state), old(state).children[e], path[i..][1..]);
      if err.None? {
        PathStep(old(state), state, path, i, dir, h, newId, calm);
      }
    }

    /** The directory under the bin that mirrors the victim's own. */
    method EnsureBinPath(f: Faults, refused: Step -> bool, rel: seq<Name>, ids: seq<Handle>)
      returns (err: Option<Error>, dir: Handle)
      requires Supply(state, ids, rel)
      modifies this`state
      ensures Growth(f, old(state), state)
      ensures err.None? ==> Walk(state, state.root, MirrorPath(rel)) == Some(dir)
      ensures Calm(f, refused) && CanMirror(old(state), rel) ==> err.None?
    {
      ghost var path, calm := MirrorPath(rel), Calm(f, refused) && CanMirror(state, rel);
      PathStart(state, path, calm);
      err, dir := ExtendPath(f, refused, path, 0, state.root, BIN_NAME, ids[0], calm);
      if err.Some? { return; }
      var i := 1;
      while i < |rel|
        invariant 1 <= i <= |rel|
        invariant forall j :: i <= j < |ids| ==> ids[j] !in state.kinds
        invariant err.None? && OnPath(state, path, i, dir, calm)
        invariant Growth(f, old(state), state)
      {
        ghost var before := state;
        err, dir := ExtendPath(f, refused, path, i, dir, rel[i - 1], ids[i], calm);
        GrowthJoins(f, old(state), before, state);
        if err.Some? { return; }
        i := i + 1;
      }
      PathEnd(state, path, dir, calm);
    }

    /** The bin path, and the first free name at its end. */
    method ChooseBin(f: Faults, refused: Step -> bool, rel: seq<Name>, ids: seq<Handle>, nanos: nat,
                     ghost drift: Drift)
      returns (err: Option<Error>, bin: Entry, ghost drift': Drift)
      requires Supply(state, ids, rel)
      modifies this`state
      ensures Growth(f, old(state), state) && Kept(old(state), state, {})
      ensures err.None? ==> Mirrors(state, bin, rel, nanos)
      ensures Calm(f, refused) && CanMirror(old(state), rel) ==> err.None? || MirrorFull(state, rel)
      ensures InvKept(f, old(state), drift, state, drift')
    {
      var dir;
      err, dir := EnsureBinPath(f, refused, rel, ids);
      bin, drift' := Entry(dir, rel[|rel| - 1]), drift;
      GrowthKept(f, old(state), state);
      if !f.linkReadFails && Inv(old(state), drift) { drift' := GrowthInv(f, old(state), state, drift); }
      if err.Some? { return; }
      if refused(FindName) { return Some(StoreFailure), bin, drift'; }
      var name := FreeBinName(state, dir, rel[|rel| - 1], nanos);
      if name.None? { return Some(AlreadyExists), bin, drift'; }
      bin := Entry(dir, name.value);
    }

    /** recycleNode: on success the victim is stamped and sits in the bin under
        a name that was free; on any failure it still sits at its own name. */
    method RecycleNode(f: Faults, refused: Step -> bool, at: Entry, rel: seq<Name>, ids: seq<Handle>,
                       nanos: nat, ghost drift: Drift)
      returns (err: Option<Error>, ghost drift': Drift, ghost moves: nat, ghost ev: Event)
      requires Supply(state, ids, rel)
      modifies this
      ensures ev.Recycle? && ev.at == at && (err.None? <==> ev.ending.Moved?)
      ensures Legal(old(Snapshot()), ev) && Snapshot() == RecycleBin.Next(old(Snapshot()), ev)
      ensures Kept(old(state), state, {at})
      ensures err.None? ==> at !in state.children && Binned(old(state), state, old(state).children[at])
      ensures err.Some? ==> Kept(old(state), state, {})
      ensures !ev.ending.Refused? ==> Mirrors(ev.grown, ev.bin, rel, nanos)
      ensures (Calm(f, refused) && at in old(state).children && old(state).children[at] in old(state).kinds
               && CanMirror(old(state), rel)) ==>
                if ev.ending.Refused? then MirrorFull(ev.grown, rel)
                else err.None? <==> RenameOutcome(ev.grown, f, at, ev.bin).Done?
      ensures ev.ending.RolledBack? ==> !refused(Rollback)
      ensures InvKept(f, old(state), drift, state, drift')
      ensures Growth(f, old(state), ev.grown)
      ensures moves <= 1
      decreases 1, 1
    {
      GrowthNone(f, state);
      drift', moves, ev := drift, 0, Recycle(at, state, at, Refused);
      if refused(Lookup) || at !in state.children || state.children[at] !in state.kinds {
        return Some(NotFound), drift', moves, ev;
      }
      var bin;
      err, bin, drift' := ChooseBin(f, refused, rel, ids, nanos, drift);
      ghost var grown, ending := state, Refused;
      ev := Recycle(at, grown, at, Refused);
      if err.Some? { return; }
      if refused(Stamp) { return Some(StoreFailure), drift', moves, ev; }
      err, drift', ending := StampAndMove(f, refused, at, bin, nanos, drift');
      moves, ev := 1, Recycle(at, grown, bin, ending);
      if err.None? { RecycledInto(old(state), grown, state, at, bin); }
    }

    /** Stamp the victim at its own name, then move it to the free bin name; when
        the move fails, take the stamp off again. */
    method StampAndMove(f: Faults, refused: Step -> bool, at: Entry, bin: Entry, nanos: nat, ghost drift: Drift)
      returns (err: Option<Error>, ghost drift': Drift, ghost ending: Ending)
      requires at in state.children && state.children[at] in state.kinds && bin !in state.children
      modifies this
      ensures !ending.Refused? && (err.None? <==> ending.Moved?) && (ending.RolledBack? ==> !refused(Rollback))
      ensures CanRecycle(old(state), at, old(state), bin, ending)
      ensures Calm(f, refused) ==> (err.None? <==> RenameOutcome(old(state), f, at, bin).Done?)
      ensures Snapshot() == AfterRecycle(old(Snapshot()), at, old(state), bin, ending)
      ensures err.None? ==>
                at !in state.children && bin in state.children && state.children[bin] == old(state).children[at]
      ensures Kept(old(state), state, if err.None? then {at} else {})
      ensures InvKept(f, old(state), drift, state, drift')
      decreases 1, 0
    {
      var victim := state.children[at];
      stamped := stamped + {victim};
      ghost var moves, inner;
      err, drift', moves, inner := Move(f, refused, true, at, bin, [], [], nanos, true, drift);
      if err.Some? {
        if !refused(Rollback) {
          stamped := stamped - {victim};
        }
        return Some(StoreFailure), drift', if refused(Rollback) then RollbackRefused else RolledBack;
      }
      RenameToFree(old(state), f, at, bin);
      placed := old(placed) - {at} + {bin};
      ending := Moved;
    }

    /** Move with the recycle bin: an overwritten file is recycled first.  The
        recursion is Move, RecycleNode, Move: the inner Move's target is free, so
        it never recycles again. */
    method Move(f: Faults, refused: Step -> bool, inner: bool, from: Entry, to: Entry, rel: seq<Name>,
                ids: seq<Handle>, nanos: nat, trash: bool, ghost drift: Drift)
      returns (err: Option<Error>, ghost drift': Drift, ghost moves: nat, ghost ev: Event)
      requires trash && to in state.children ==> Supply(state, ids, rel)
      modifies this
      ensures Recycles(old(state), f, from, to, rel, trash) ==>
                ev.Replace? && ev.from == from && ev.to == to && (err.None? <==> ev.ending.Moved? && ev.commits)
                && ev.commits == !refused(OuterCommit)
      ensures !Recycles(old(state), f, from, to, rel, trash) ==>
                ev == Plain(Call(Rename(from, to), f, err.None?)) && moves == 0
      ensures Legal(old(Snapshot()), ev) && Snapshot() == RecycleBin.Next(old(Snapshot()), ev)
      ensures !Recycles(old(state), f, from, to, rel, trash) && err.None? ==>
                RenameOutcome(old(state), f, from, to) == Done(state) && stamped == old(stamped)
      ensures !Recycles(old(state), f, from, to, rel, trash) && err.Some? ==> Snapshot() == old(Snapshot())
      ensures !Recycles(old(state), f, from, to, rel, trash) && err.Some? ==>
                || RenameOutcome(old(state), f, from, to) == Failed(err.value)
                || (err.value == StoreFailure && refused(if inner then InnerCommit else OuterCommit))
      ensures Recycles(old(state), f, from, to, rel, trash) ==>
                Overwritten(old(state), old(stamped), state, stamped, from, to, err)
      ensures InvKept(f, old(state), drift, state, drift')
      ensures ev.Plain? || Growth(f, old(state), ev.grown)
      ensures moves <= 1
      decreases if to in state.children then 2 else 0, 0
    {
      drift', moves, ev := drift, 0, Plain(Call(Rename(from, to), f, false));
      err := RenameError(state, f, from, to);
      if err.Some? { return; }
      if from == to {
        placed := StillPlaced(old(Snapshot()), state);
        return None, drift', moves, Plain(Call(Rename(from, to), f, true));
      }
      var src, srcStamped := state.children[from], state.children[from] in stamped;
      if Recycles(state, f, from, to, rel, trash) {
        ghost var recycled;
        err, drift', moves, recycled := RecycleNode(f, refused, to, rel, ids, nanos, drift);
        ev := Replace(from, to, recycled.grown, recycled.bin, recycled.ending, !refused(OuterCommit));
        if err.Some? { return; }
        RenameAfterRecycle(old(state), old(stamped), state, f, from, to, rel);
        if refused(OuterCommit) { return Some(StoreFailure), drift', moves, ev; }
        if Inv(state, drift') { RenameKeeps(state, drift', from, to); }
        state := RenameState(state, from, to);
        stamped := WithStamp(stamped, src, srcStamped);
        placed := placed - {from, to};
        return None, drift', moves, ev;
      }
      if RenameAborts(state, f, from, to) || refused(if inner then InnerCommit else OuterCommit) {
        return Some(StoreFailure), drift', moves, ev;
      }
      PlainRename(state, drift, f, from, to);
      state, drift' := RenameState(state, from, to), DriftAfter(state, drift, from, to);
      stamped := WithStamp(stamped, src, srcStamped);
      placed := StillPlaced(old(Snapshot()), state);
      return None, drift', moves, Plain(Call(Rename(from, to), f, true));
    }
  }

  /** The rename passes its checks and would overwrite a file outside the bin. */
  predicate Recycles(s: State, f: Faults, from: Entry, to: Entry, rel: seq<Name>, trash: bool) {
    && trash && from != to && RenameError(s, f, from, to).None?
    && to in s.children && !IsDir(s, s.children[to]) && !InRecycle(rel)
  }

  /** A rename recycles exactly when the bin is on, it could replace the target, and
      the target is a file whose own path is not in the bin. */
  lemma RecyclesExactly(s: State, f: Faults, from: Entry, to: Entry, rel: seq<Name>, trash: bool)
    ensures Recycles(s, f, from, to, rel, trash) <==>
            && trash && from != to && to in s.children && !IsDir(s, s.children[to])
            && RenameOutcome(s, f.(linkReadFails := false), from, to).Done?
            && (rel == [] || rel[0] != "#recycle")
  {
  }

  /** What a rename over a recycled file leaves: never the loss of either node. */
  ghost predicate Overwritten(s: State, marks: set<Handle>, t: State, marks': set<Handle>, from: Entry, to: Entry,
                              err: Option<Error>)
    requires from in s.children && to in s.children
  {
    && Kept(s, t, {from, to})
    && (err.None? ==>
          && from !in t.children && to in t.children && t.children[to] == s.children[from]
          && Binned(s, t, s.children[to])
          && marks' == (if s.children[from] == s.children[to] then marks else marks + {s.children[to]}))
    && (err.Some? ==>
          && from in t.children && t.children[from] == s.children[from]
          && ((to in t.children && t.children[to] == s.children[to])
              || (Binned(s, t, s.children[to]) && marks' == marks + {s.children[to]})))
  }
}
