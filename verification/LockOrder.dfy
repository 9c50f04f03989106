/** Deadlock freedom: every operation takes its locks in one strict order, so
    no reachable state of any number of concurrent operations has a cyclic wait,
    and as long as some operation is unfinished, one of them can move. */
module LockOrder {

  type Handle = nat
  type Thread = nat

  /** The mutexes an operation may hold while it asks for another: a shard of
      the create-name bank, a shard of the parent-link bank, a file's
      pending-write flush lock, a directory's timestamp flush lock, and the
      pending-write flush lock of a directory handle, which only a SETATTR that
      sets a size and a time on a directory takes. */
  datatype Lock =
    | CreateName(shard: nat) | ParentLink(shard: nat)
    | WriteFlush(file: Handle) | DirFlush(dir: Handle) | DirWriteFlush(dir: Handle)

  datatype Act = Acquire(lock: Lock) | Release(lock: Lock)

  function Level(l: Lock): nat {
    match l
    case CreateName(_) => 0
    case ParentLink(_) => 1
    case WriteFlush(_) => 2
    case DirFlush(_) => 3
    case DirWriteFlush(_) => 4
  }

  function Index(l: Lock): nat {
    match l
    case CreateName(i) => i
    case ParentLink(i) => i
    case WriteFlush(h) => h
    case DirFlush(h) => h
    case DirWriteFlush(h) => h
  }

  predicate Before(a: Lock, b: Lock) {
    Level(a) < Level(b) || (Level(a) == Level(b) && Index(a) < Index(b))
  }

  // ---- the operations ----

  /** The shard of a handle, and of a (parent, name) pair: any two functions. */
  datatype Shards = Shards(parent: Handle -> nat, name: (Handle, string) -> nat)

  /** `flush` says whether the timestamp bump finds a durable flush due. */
  datatype Operation =
    | CreateFile(dir: Handle, name: string, flush: bool)
    | Mkdir(dir: Handle, name: string, flush: bool)
    | HardLink(dir: Handle, name: string)
    | Unlink(dir: Handle, file: Handle, flush: bool)
    | Rmdir(dir: Handle, flush: bool)
    | RenameFile(from: Handle, to: Handle, flushFrom: bool, flushTo: bool)
    | RenameDir(from: Handle, to: Handle, flushFrom: bool, flushTo: bool)
    | FlushWrites(file: Handle)
    | Truncate(file: Handle)
    | SetDirTimes(dir: Handle, setsSize: bool)

  function Hold(l: Lock): seq<Act> {
    [Acquire(l), Release(l)]
  }

  /** recordDirTimes: the flush, when due, takes the directory's flush lock. */
  function Bump(dir: Handle, flush: bool): seq<Act> {
    if flush then Hold(DirFlush(dir)) else []
  }

  function Bumps(from: Handle, to: Handle, flushFrom: bool, flushTo: bool): seq<Act> {
    Bump(from, flushFrom) + (if from == to then [] else Bump(to, flushTo))
  }

  /** lockParentLinks: the lower shard first, one shard once. */
  function LockParents(i: nat, j: nat): seq<Act> {
    if i == j then [Acquire(ParentLink(i))]
    else if i < j then [Acquire(ParentLink(i)), Acquire(ParentLink(j))]
    else [Acquire(ParentLink(j)), Acquire(ParentLink(i))]
  }

  function UnlockParents(i: nat, j: nat): seq<Act> {
    if i == j then [Release(ParentLink(i))]
    else if i < j then [Release(ParentLink(j)), Release(ParentLink(i))]
    else [Release(ParentLink(i)), Release(ParentLink(j))]
  }

  /** The lock acts of one operation, in program order. */
  function Program(op: Operation, sh: Shards): seq<Act> {
    match op
    case CreateFile(dir, name, flush) => Hold(CreateName(sh.name(dir, name))) + Bump(dir, flush)
    case Mkdir(dir, name, flush) =>
      var c, p := CreateName(sh.name(dir, name)), ParentLink(sh.parent(dir));
      [Acquire(c), Acquire(p), Release(c)] + (Bump(dir, flush) + [Release(p)])
    case HardLink(dir, name) => Hold(CreateName(sh.name(dir, name)))
    case Unlink(dir, file, flush) => [Acquire(WriteFlush(file))] + (Bump(dir, flush) + [Release(WriteFlush(file))])
    case Rmdir(dir, flush) =>
      var p := ParentLink(sh.parent(dir));
      [Acquire(p)] + (Bump(dir, flush) + [Release(p)])
    case RenameFile(from, to, ff, ft) => Bumps(from, to, ff, ft)
    case RenameDir(from, to, ff, ft) =>
      if from == to then Bumps(from, to, ff, ft)
      else
        var i, j := sh.parent(from), sh.parent(to);
        LockParents(i, j) + (Bumps(from, to, ff, ft) + UnlockParents(i, j))
    case FlushWrites(file) => Hold(WriteFlush(file))
    case Truncate(file) => Hold(WriteFlush(file))
    case SetDirTimes(dir, setsSize) =>
      [Acquire(DirFlush(dir))] + ((if setsSize then Hold(DirWriteFlush(dir)) else []) + [Release(DirFlush(dir))])
  }

  // ---- the order ----

  predicate AllBefore(held: set<Lock>, l: Lock) {
    forall h :: h in held ==> Before(h, l)
  }

  /** From `held`, the acts take each lock above all held ones, release only
      held ones, and end with nothing held. */
  predicate Ordered(held: set<Lock>, acts: seq<Act>)
    decreases |acts|
  {
    if acts == [] then held == {}
    else match acts[0]
      case Acquire(l) => AllBefore(held, l) && Ordered(held + {l}, acts[1..])
      case Release(l) => l in held && Ordered(held - {l}, acts[1..])
  }

  /** A leaf lock held and dropped on top leaves the rest as it was. */
  lemma HoldOnTop(held: set<Lock>, l: Lock, rest: seq<Act>)
    requires AllBefore(held, l) && Ordered(held, rest)
    ensures Ordered(held, Hold(l) + rest)
  {
    var acts := Hold(l) + rest;
    assert acts[1..] == [Release(l)] + rest && acts[1..][1..] == rest;
    assert l !in held;
    assert held + {l} - {l} == held;
  }

  lemma BumpOnTop(held: set<Lock>, dir: Handle, flush: bool, rest: seq<Act>)
    requires AllBefore(held, DirFlush(dir)) && Ordered(held, rest)
    ensures Ordered(held, Bump(dir, flush) + rest)
  {
    assert [] + rest == rest;
    if flush {
      HoldOnTop(held, DirFlush(dir), rest);
    }
  }

  lemma BumpsOnTop(held: set<Lock>, from: Handle, to: Handle, ff: bool, ft: bool, rest: seq<Act>)
    requires forall h :: h in held ==> Level(h) < 3
    requires Ordered(held, rest)
    ensures Ordered(held, Bumps(from, to, ff, ft) + rest)
  {
    var second := if from == to then [] else Bump(to, ft);
    BumpOnTop(held, to, ft, rest);
    assert [] + rest == rest;
    BumpOnTop(held, from, ff, second + rest);
    assert Bumps(from, to, ff, ft) + rest == Bump(from, ff) + (second + rest);
  }

  lemma AcquireFirst(held: set<Lock>, l: Lock, rest: seq<Act>)
    requires AllBefore(held, l) && Ordered(held + {l}, rest)
    ensures Ordered(held, [Acquire(l)] + rest)
  {
    assert ([Acquire(l)] + rest)[1..] == rest;
  }

  lemma ReleaseFirst(held: set<Lock>, l: Lock, rest: seq<Act>)
    requires l in held && Ordered(held - {l}, rest)
    ensures Ordered(held, [Release(l)] + rest)
  {
    assert ([Release(l)] + rest)[1..] == rest;
  }

  lemma SingleOrdered(l: Lock, dir: Handle, flush: bool)
    requires Level(l) < 3
    ensures Ordered({l}, Bump(dir, flush) + [Release(l)])
  {
    ReleaseFirst({l}, l, []);
    assert [Release(l)] + [] == [Release(l)];
    BumpOnTop({l}, dir, flush, [Release(l)]);
  }

  lemma RenameDirOrdered(from: Handle, to: Handle, ff: bool, ft: bool, i: nat, j: nat)
    ensures Ordered({}, LockParents(i, j) + (Bumps(from, to, ff, ft) + UnlockParents(i, j)))
  {
    var lo, hi := ParentLink(if i <= j then i else j), ParentLink(if i <= j then j else i);
    var body := Bumps(from, to, ff, ft) + UnlockParents(i, j);
    ReleaseFirst({lo}, lo, []);
    assert [Release(lo)] + [] == [Release(lo)];
    if i == j {
      BumpsOnTop({lo}, from, to, ff, ft, UnlockParents(i, j));
      assert {} + {lo} == {lo};
      AcquireFirst({}, lo, body);
    } else {
      assert {lo, hi} - {hi} == {lo};
      ReleaseFirst({lo, hi}, hi, [Release(lo)]);
      assert [Release(hi)] + [Release(lo)] == UnlockParents(i, j);
      BumpsOnTop({lo, hi}, from, to, ff, ft, UnlockParents(i, j));
      assert {lo} + {hi} == {lo, hi} && {} + {lo} == {lo};
      AcquireFirst({lo}, hi, body);
      AcquireFirst({}, lo, [Acquire(hi)] + body);
      assert [Acquire(lo)] + ([Acquire(hi)] + body) == LockParents(i, j) + body;
    }
  }

  lemma MkdirOrdered(c: Lock, p: Lock, dir: Handle, flush: bool)
    requires c.CreateName? && p.ParentLink?
    ensures Ordered({}, [Acquire(c), Acquire(p), Release(c)] + (Bump(dir, flush) + [Release(p)]))
  {
    var body := Bump(dir, flush) + [Release(p)];
    SingleOrdered(p, dir, flush);
    assert {c, p} - {c} == {p} && {c} + {p} == {c, p} && {} + {c} == {c};
    ReleaseFirst({c, p}, c, body);
    AcquireFirst({c}, p, [Release(c)] + body);
    AcquireFirst({}, c, [Acquire(p)] + ([Release(c)] + body));
    assert [Acquire(c)] + ([Acquire(p)] + ([Release(c)] + body)) == [Acquire(c), Acquire(p), Release(c)] + body;
  }

  /** Every operation follows the order, whatever the shard functions. */
  lemma ProgramsOrdered(op: Operation, sh: Shards)
    ensures Ordered({}, Program(op, sh))
  {
    match op
    case CreateFile(dir, name, flush) =>
      BumpOnTop({}, dir, flush, []);
      assert Bump(dir, flush) + [] == Bump(dir, flush);
      HoldOnTop({}, CreateName(sh.name(dir, name)), Bump(dir, flush));
    case Mkdir(dir, name, flush) =>
      MkdirOrdered(CreateName(sh.name(dir, name)), ParentLink(sh.parent(dir)), dir, flush);
    case HardLink(dir, name) =>
      HoldOnTop({}, CreateName(sh.name(dir, name)), []);
      assert Program(op, sh) + [] == Program(op, sh);
    case Unlink(dir, file, flush) =>
      SingleOrdered(WriteFlush(file), dir, flush);
      assert {} + {WriteFlush(file)} == {WriteFlush(file)};
      AcquireFirst({}, WriteFlush(file), Bump(dir, flush) + [Release(WriteFlush(file))]);
    case Rmdir(dir, flush) =>
      var p := ParentLink(sh.parent(dir));
      SingleOrdered(p, dir, flush);
      assert {} + {p} == {p};
      AcquireFirst({}, p, Bump(dir, flush) + [Release(p)]);
    case RenameFile(from, to, ff, ft) =>
      BumpsOnTop({}, from, to, ff, ft, []);
      assert Program(op, sh) + [] == Program(op, sh);
    case RenameDir(from, to, ff, ft) =>
      if from == to {
        BumpsOnTop({}, from, to, ff, ft, []);
        assert Program(op, sh) + [] == Program(op, sh);
      } else {
        RenameDirOrdered(from, to, ff, ft, sh.parent(from), sh.parent(to));
      }
    case FlushWrites(file) =>
      HoldOnTop({}, WriteFlush(file), []);
      assert Program(op, sh) + [] == Program(op, sh);
    case Truncate(file) =>
      HoldOnTop({}, WriteFlush(file), []);
      assert Program(op, sh) + [] == Program(op, sh);
    case SetDirTimes(dir, setsSize) =>
      var l := DirFlush(dir);
      ReleaseFirst({l}, l, []);
      assert [Release(l)] + [] == [Release(l)] && [] + [Release(l)] == [Release(l)] && {} + {l} == {l};
      HoldOnTop({l}, DirWriteFlush(dir), [Release(l)]);
      AcquireFirst({}, l, (if setsSize then Hold(DirWriteFlush(dir)) else []) + [Release(l)]);
  }

  /** The locks an operation needs: the name's shard for whatever creates one, the
      parent's shard for whatever changes a parent's count, the file's flush lock to
      write out, truncate or drop it, and a directory's for a due or explicit time. */
  predicate Needs(op: Operation, sh: Shards, l: Lock) {
    match op
    case CreateFile(dir, name, flush) => l == CreateName(sh.name(dir, name)) || (flush && l == DirFlush(dir))
    case Mkdir(dir, name, flush) =>
      l == CreateName(sh.name(dir, name)) || l == ParentLink(sh.parent(dir)) || (flush && l == DirFlush(dir))
    case HardLink(dir, name) => l == CreateName(sh.name(dir, name))
    case Unlink(dir, file, flush) => l == WriteFlush(file) || (flush && l == DirFlush(dir))
    case Rmdir(dir, flush) => l == ParentLink(sh.parent(dir)) || (flush && l == DirFlush(dir))
    case RenameFile(from, to, ff, ft) => NeedsBumps(from, to, ff, ft, l)
    case RenameDir(from, to, ff, ft) =>
      || NeedsBumps(from, to, ff, ft, l)
      || (from != to && (l == ParentLink(sh.parent(from)) || l == ParentLink(sh.parent(to))))
    case FlushWrites(file) => l == WriteFlush(file)
    case Truncate(file) => l == WriteFlush(file)
    case SetDirTimes(dir, setsSize) => l == DirFlush(dir) || (setsSize && l == DirWriteFlush(dir))
  }

  predicate NeedsBumps(from: Handle, to: Handle, ff: bool, ft: bool, l: Lock) {
    (ff && l == DirFlush(from)) || (from != to && ft && l == DirFlush(to))
  }

  lemma BumpsTake(from: Handle, to: Handle, ff: bool, ft: bool, l: Lock)
    ensures Acquire(l) in Bumps(from, to, ff, ft) <==> NeedsBumps(from, to, ff, ft, l)
  {
  }

  lemma ParentsTake(i: nat, j: nat, l: Lock)
    ensures Acquire(l) in LockParents(i, j) <==> l == ParentLink(i) || l == ParentLink(j)
    ensures Acquire(l) !in UnlockParents(i, j)
  {
  }

  /** An operation takes exactly the locks it needs. */
  lemma TakesExactly(op: Operation, sh: Shards, l: Lock)
    ensures Acquire(l) in Program(op, sh) <==> Needs(op, sh, l)
  {
    match op
    case RenameFile(from, to, ff, ft) => BumpsTake(from, to, ff, ft, l);
    case RenameDir(from, to, ff, ft) =>
      BumpsTake(from, to, ff, ft, l);
      ParentsTake(sh.parent(from), sh.parent(to), l);
    case _ =>
  }

  // ---- any number of operations at once ----

  /** Each thread's remaining acts and held locks. */
  datatype State = State(rest: map<Thread, seq<Act>>, held: map<Thread, set<Lock>>)

  datatype Event = Start(thread: Thread, op: Operation) | Advance(thread: Thread)

  const IDLE := State(map[], map[])

  ghost predicate Free(s: State, l: Lock) {
    forall t :: t in s.held ==> l !in s.held[t]
  }

  /** The next act of t can happen: a lock is only taken when nobody holds it. */
  ghost predicate Enabled(s: State, t: Thread) {
    && t in s.rest && t in s.held && s.rest[t] != []
    && (s.rest[t][0].Acquire? ==> Free(s, s.rest[t][0].lock))
  }

  ghost function Next(s: State, ev: Event, sh: Shards): State {
    match ev
    case Start(t, op) =>
      if t in s.rest && s.rest[t] != [] then s
      else State(s.rest[t := Program(op, sh)], s.held[t := {}])
    case Advance(t) =>
      if !Enabled(s, t) then s
      else
        var act := s.rest[t][0];
        State(s.rest[t := s.rest[t][1..]],
              s.held[t := if act.Acquire? then s.held[t] + {act.lock} else s.held[t] - {act.lock}])
  }

  ghost function Run(s: State, events: seq<Event>, sh: Shards): State
    decreases |events|
  {
    if events == [] then s else Run(Next(s, events[0], sh), events[1..], sh)
  }

  ghost predicate Inv(s: State) {
    && s.rest.Keys == s.held.Keys
    && (forall t :: t in s.rest ==> Ordered(s.held[t], s.rest[t]))
    && (forall t, u, l :: t in s.held && u in s.held && l in s.held[t] && l in s.held[u] ==> t == u)
  }

  lemma StepInv(s: State, ev: Event, sh: Shards)
    requires Inv(s)
    ensures Inv(Next(s, ev, sh))
  {
    if ev.Start? {
      ProgramsOrdered(ev.op, sh);
      if ev.thread in s.rest && s.rest[ev.thread] == [] {
        assert s.held[ev.thread] == {};
      }
    }
  }

  lemma {:induction false} RunInv(s: State, events: seq<Event>, sh: Shards)
    requires Inv(s)
    ensures Inv(Run(s, events, sh))
    decreases |events|
  {
    if events != [] {
      StepInv(s, events[0], sh);
      RunInv(Next(s, events[0], sh), events[1..], sh);
    }
  }

  /** t asks for a lock that u holds. */
  ghost predicate Waits(s: State, t: Thread, u: Thread) {
    && t in s.rest && u in s.held && s.rest[t] != []
    && s.rest[t][0].Acquire? && s.rest[t][0].lock in s.held[u]
  }

  /** Along a chain of waits the wanted locks climb the order. */
  lemma {:induction false} WantedClimbs(s: State, chain: seq<Thread>, k: nat)
    requires Inv(s) && 0 < k < |chain|
    requires forall i :: 0 <= i < |chain| - 1 ==> Waits(s, chain[i], chain[i + 1])
    requires forall i :: 0 <= i < |chain| ==>
               chain[i] in s.rest && s.rest[chain[i]] != [] && s.rest[chain[i]][0].Acquire?
    ensures Before(s.rest[chain[0]][0].lock, s.rest[chain[k]][0].lock)
  {
    assert Waits(s, chain[k - 1], chain[k]);
    assert Ordered(s.held[chain[k]], s.rest[chain[k]]);
    if k > 1 {
      WantedClimbs(s, chain, k - 1);
    }
  }

  /** No reachable state has a cycle of threads each waiting for the next. */
  lemma NoCyclicWait(events: seq<Event>, sh: Shards, cycle: seq<Thread>)
    requires |cycle| > 0
    ensures var s := Run(IDLE, events, sh);
            !(Waits(s, cycle[|cycle| - 1], cycle[0])
              && forall i :: 0 <= i < |cycle| - 1 ==> Waits(s, cycle[i], cycle[i + 1]))
  {
    var s := Run(IDLE, events, sh);
    RunInv(IDLE, events, sh);
    var n := |cycle| - 1;
    if Waits(s, cycle[n], cycle[0]) && forall i :: 0 <= i < n ==> Waits(s, cycle[i], cycle[i + 1]) {
      forall i | 0 <= i < |cycle| ensures cycle[i] in s.rest && s.rest[cycle[i]] != [] && s.rest[cycle[i]][0].Acquire? {
        if i < n {
          assert Waits(s, cycle[i], cycle[i + 1]);
        }
      }
      assert Ordered(s.held[cycle[0]], s.rest[cycle[0]]);
      if n > 0 {
        WantedClimbs(s, cycle, n);
      }
    }
  }

  /** Among finitely many threads that want locks, one wants a highest lock. */
  lemma {:induction false} HighestWant(s: State, ts: set<Thread>) returns (t: Thread)
    requires ts != {}
    requires forall u :: u in ts ==> u in s.rest && s.rest[u] != [] && s.rest[u][0].Acquire?
    ensures t in ts && forall u :: u in ts ==> !Before(s.rest[t][0].lock, s.rest[u][0].lock)
    decreases |ts|
  {
    t :| t in ts;
    if ts != {t} {
      var v := HighestWant(s, ts - {t});
      if Before(s.rest[t][0].lock, s.rest[v][0].lock) {
        t := v;
      }
    }
  }

  /** Progress: while some operation is unfinished, some operation can move. */
  lemma SomeThreadCanAdvance(events: seq<Event>, sh: Shards, t: Thread)
    requires var s := Run(IDLE, events, sh); t in s.rest && s.rest[t] != []
    ensures exists u :: Enabled(Run(IDLE, events, sh), u)
  {
    var s := Run(IDLE, events, sh);
    RunInv(IDLE, events, sh);
    var blocked := set u | u in s.rest && s.rest[u] != [] && s.rest[u][0].Acquire? && !Free(s, s.rest[u][0].lock);
    if t in blocked {
      var top := HighestWant(s, blocked);
      var u :| u in s.held && s.rest[top][0].lock in s.held[u];
      assert Ordered(s.held[u], s.rest[u]);
      assert u !in blocked;
      assert Enabled(s, u);
    } else {
      assert Enabled(s, t);
    }
  }
}
