/** Concurrent creates and hard links of one name on a store that only promises
    READ COMMITTED: the create-name shard is held over the existence recheck and
    the commit.  Any number of threads, any schedule, any shard function. */
module CreateRace {

  import opened Common

  type Thread = nat

  datatype Key = Key(parent: nat, name: string)

  /** How a committed entry came to be: by a create or link, or by a rename,
      which does not take the create-name lock. */
  datatype Origin = ByCreate | ByRename

  datatype Entry = Entry(handle: nat, origin: Origin)

  /** Where a create stands.  Recheck and commit are separate steps: nothing in
      the store keeps the answer of the recheck true until the commit.  A recheck
      that cannot be read is taken for an absent name; `sure` says it was read. */
  datatype Phase =
    | Waiting(key: Key, handle: nat)
    | Locked(key: Key, handle: nat)
    | Rechecked(key: Key, handle: nat, sure: bool)
    | Finished(key: Key)

  /** The history of commits on the entry table. */
  datatype Item = Created(key: Key, handle: nat) | Removed(key: Key) | Landed(key: Key, handle: nat)

  datatype State = State(
    children: map<Key, Entry>,
    holder: map<nat, Thread>,
    threads: map<Thread, Phase>,
    log: seq<Item>)

  datatype Event =
    | Begin(thread: Thread, key: Key, handle: nat)
    | Acquire(thread: Thread)
    | Recheck(thread: Thread, readable: bool)
    | Commit(thread: Thread, succeeds: bool)
    | Release(thread: Thread)
    | Remove(key: Key)
    | Land(key: Key, handle: nat)

  const EMPTY := State(map[], map[], map[], [])

  function Next(s: State, ev: Event, shard: Key -> nat): State {
    match ev
    case Begin(t, key, h) =>
      if t in s.threads then s else s.(threads := s.threads[t := Waiting(key, h)])
    case Acquire(t) =>
      if t in s.threads && s.threads[t].Waiting? && shard(s.threads[t].key) !in s.holder then
        var p := s.threads[t];
        s.(holder := s.holder[shard(p.key) := t], threads := s.threads[t := Locked(p.key, p.handle)])
      else s
    case Recheck(t, readable) =>
      if t in s.threads && s.threads[t].Locked? then
        var p := s.threads[t];
        s.(threads := s.threads[t := if readable && p.key in s.children then Finished(p.key)
                                     else Rechecked(p.key, p.handle, readable)])
      else s
    case Commit(t, succeeds) =>
      if t in s.threads && s.threads[t].Rechecked? then
        var p := s.threads[t];
        var u := s.(threads := s.threads[t := Finished(p.key)]);
        if succeeds
        then u.(children := s.children[p.key := Entry(p.handle, ByCreate)], log := s.log + [Created(p.key, p.handle)])
        else u
      else s
    case Release(t) =>
      if t in s.threads && s.threads[t].Finished?
      then s.(holder := s.holder - {shard(s.threads[t].key)}, threads := s.threads - {t})
      else s
    case Remove(key) =>
      if key in s.children then s.(children := s.children - {key}, log := s.log + [Removed(key)]) else s
    case Land(key, h) =>
      s.(children := s.children[key := Entry(h, ByRename)], log := s.log + [Landed(key, h)])
  }

  function Run(s: State, events: seq<Event>, shard: Key -> nat): State
    decreases |events|
  {
    if events == [] then s else Run(Next(s, events[0], shard), events[1..], shard)
  }

  /** With nobody in the way, a create of a free name makes it, and one of a taken name
      changes nothing; either gives the lock back. */
  lemma UncontendedCreate(s: State, shard: Key -> nat, t: Thread, key: Key, h: nat)
    requires t !in s.threads && shard(key) !in s.holder
    ensures var u := Next(Next(Next(s, Begin(t, key, h), shard), Acquire(t), shard), Recheck(t, true), shard);
            var v := Next(Next(u, Commit(t, true), shard), Release(t), shard);
            && v.threads == s.threads && v.holder == s.holder
            && (key in s.children ==> v.children == s.children && v.log == s.log)
            && (key !in s.children ==>
                  && v.children == s.children[key := Entry(h, ByCreate)]
                  && v.log == s.log + [Created(key, h)]
                  && Next(u, Commit(t, false), shard).children == s.children)
  {
  }

  /** While another create holds the shard, nobody else gets it. */
  lemma ShardBlocks(s: State, shard: Key -> nat, t: Thread)
    requires t in s.threads && s.threads[t].Waiting? && shard(s.threads[t].key) in s.holder
    ensures Next(s, Acquire(t), shard) == s
  {
  }

  /** The last commit on a key. */
  function Latest(log: seq<Item>, key: Key): Option<Item> {
    if log == [] then None
    else if log[|log| - 1].key == key then Some(log[|log| - 1])
    else Latest(log[..|log| - 1], key)
  }

  /** What the history says the entry of a key is. */
  function Recorded(log: seq<Item>, key: Key): Option<Entry> {
    match Latest(log, key)
    case Some(Created(_, h)) => Some(Entry(h, ByCreate))
    case Some(Landed(_, h)) => Some(Entry(h, ByRename))
    case _ => None
  }

  predicate HoldsShard(s: State, t: Thread, shard: Key -> nat)
    requires t in s.threads
  {
    shard(s.threads[t].key) in s.holder && s.holder[shard(s.threads[t].key)] == t
  }

  ghost predicate Agrees(s: State, key: Key) {
    Recorded(s.log, key) == if key in s.children then Some(s.children[key]) else None
  }

  ghost predicate AllSure(s: State) {
    forall t :: t in s.threads && s.threads[t].Rechecked? ==> s.threads[t].sure
  }

  /** The shard is held from before the recheck to after the commit, and a name
      whose recheck was read can only have been taken since by a rename. */
  ghost predicate Inv(s: State, shard: Key -> nat) {
    && (forall t :: t in s.threads && !s.threads[t].Waiting? ==> HoldsShard(s, t, shard))
    && (forall t :: (t in s.threads && s.threads[t].Rechecked? && s.threads[t].sure
                     && s.threads[t].key in s.children) ==>
          s.children[s.threads[t].key].origin == ByRename)
    && (forall key :: Agrees(s, key))
  }

  lemma LatestAppend(log: seq<Item>, item: Item, key: Key)
    ensures Latest(log + [item], key) == if item.key == key then Some(item) else Latest(log, key)
  {
    assert (log + [item])[..|log + [item]| - 1] == log;
  }

  lemma StepAgrees(s: State, ev: Event, shard: Key -> nat, key: Key)
    requires Inv(s, shard)
    ensures Agrees(Next(s, ev, shard), key)
  {
    assert Agrees(s, key);
    match ev
    case Commit(t, succeeds) =>
      if t in s.threads && s.threads[t].Rechecked? {
        LatestAppend(s.log, Created(s.threads[t].key, s.threads[t].handle), key);
      }
    case Remove(other) => LatestAppend(s.log, Removed(other), key);
    case Land(other, h) => LatestAppend(s.log, Landed(other, h), key);
    case _ =>
  }

  lemma StepInv(s: State, ev: Event, shard: Key -> nat)
    requires Inv(s, shard)
    ensures Inv(Next(s, ev, shard), shard)
  {
    forall key ensures Agrees(Next(s, ev, shard), key) {
      StepAgrees(s, ev, shard, key);
    }
  }

  lemma {:induction false} RunInv(s: State, events: seq<Event>, shard: Key -> nat)
    requires Inv(s, shard)
    ensures Inv(Run(s, events, shard), shard)
    decreases |events|
  {
    if events != [] {
      StepInv(s, events[0], shard);
      RunInv(Next(s, events[0], shard), events[1..], shard);
    }
  }

  /** Between two creates of a name lies a removal of it, or a rename onto it. */
  ghost predicate Separated(log: seq<Item>) {
    forall i, j :: 0 <= i < j < |log| && log[i].Created? && log[j].Created? && log[i].key == log[j].key ==>
      exists m :: i < m < j && !log[m].Created? && log[m].key == log[i].key
  }

  /** After a create of the key, a latest commit of another kind came later. */
  lemma {:induction false} LaterCommit(log: seq<Item>, i: nat) returns (m: nat)
    requires i < |log| && log[i].Created?
    requires Latest(log, log[i].key).Some? ==> !Latest(log, log[i].key).value.Created?
    ensures i < m < |log| && !log[m].Created? && log[m].key == log[i].key
  {
    var last := log[|log| - 1];
    if last.key == log[i].key {
      m := |log| - 1;
    } else {
      m := LaterCommit(log[..|log| - 1], i);
    }
  }

  lemma AppendSeparated(log: seq<Item>, item: Item)
    requires Separated(log)
    requires item.Created? && Latest(log, item.key).Some? ==> !Latest(log, item.key).value.Created?
    ensures Separated(log + [item])
  {
    var log' := log + [item];
    forall i, j | 0 <= i < j < |log'| && log'[i].Created? && log'[j].Created? && log'[i].key == log'[j].key
      ensures exists m :: i < m < j && !log'[m].Created? && log'[m].key == log'[i].key
    {
      if j == |log| {
        var m := LaterCommit(log, i);
        assert !log'[m].Created? && log'[m].key == log'[i].key;
      } else {
        assert log[i].Created? && log[j].Created?;
        var m :| i < m < j && !log[m].Created? && log[m].key == log[i].key;
        assert !log'[m].Created? && log'[m].key == log'[i].key;
      }
    }
  }

  /** A create about to commit whose unreadable recheck hid another create. */
  predicate HidesCreate(s: State, t: Thread)
    requires t in s.threads && s.threads[t].Rechecked?
  {
    var latest := Latest(s.log, s.threads[t].key);
    !s.threads[t].sure && latest.Some? && latest.value.Created?
  }

  lemma NotSeparated(log: seq<Item>, item: Item)
    requires item.Created? && Latest(log, item.key).Some? && Latest(log, item.key).value.Created?
    ensures !Separated(log + [item])
  {
    var i := LatestAt(log, item.key);
    var log' := log + [item];
    assert log'[i].Created? && log'[|log|].Created?;
  }

  lemma {:induction false} LatestAt(log: seq<Item>, key: Key) returns (i: nat)
    requires Latest(log, key).Some?
    ensures i < |log| && log[i] == Latest(log, key).value && log[i].key == key
    ensures forall m :: i < m < |log| ==> log[m].key != key
  {
    if log[|log| - 1].key == key {
      i := |log| - 1;
    } else {
      i := LatestAt(log[..|log| - 1], key);
    }
  }

  /** One commit keeps creates of a name separated exactly when it does not hide
      another create. */
  lemma CommitSeparates(s: State, t: Thread, shard: Key -> nat)
    requires Inv(s, shard) && Separated(s.log) && t in s.threads && s.threads[t].Rechecked?
    ensures Separated(Next(s, Commit(t, true), shard).log) <==> !HidesCreate(s, t)
  {
    var p := s.threads[t];
    assert Agrees(s, p.key);
    if HidesCreate(s, t) {
      NotSeparated(s.log, Created(p.key, p.handle));
    } else {
      AppendSeparated(s.log, Created(p.key, p.handle));
    }
  }

  predicate CommitHides(s: State, ev: Event) {
    ev.Commit? && ev.succeeds && ev.thread in s.threads && s.threads[ev.thread].Rechecked? && HidesCreate(s, ev.thread)
  }

  /** No commit of the run goes over a create that its recheck could not read. */
  ghost predicate RunHidesNone(s: State, events: seq<Event>, shard: Key -> nat)
    decreases |events|
  {
    events != [] ==>
      && !CommitHides(s, events[0])
      && RunHidesNone(Next(s, events[0], shard), events[1..], shard)
  }

  lemma StepSeparated(s: State, ev: Event, shard: Key -> nat)
    requires Inv(s, shard) && Separated(s.log)
    ensures Separated(Next(s, ev, shard).log) <==> !CommitHides(s, ev)
  {
    match ev
    case Commit(t, succeeds) =>
      if succeeds && t in s.threads && s.threads[t].Rechecked? {
        CommitSeparates(s, t, shard);
      }
    case Remove(key) => AppendSeparated(s.log, Removed(key));
    case Land(key, h) => AppendSeparated(s.log, Landed(key, h));
    case _ =>
  }

  /** For every schedule in which no unreadable recheck hides a create: two creates
      of one name never both succeed unless the name was freed, or taken by a rename,
      in between. */
  lemma {:induction false} CreatesSeparated(s: State, events: seq<Event>, shard: Key -> nat)
    requires Inv(s, shard) && Separated(s.log) && RunHidesNone(s, events, shard)
    ensures Separated(Run(s, events, shard).log)
    decreases |events|
  {
    if events != [] {
      StepSeparated(s, events[0], shard);
      StepInv(s, events[0], shard);
      CreatesSeparated(Next(s, events[0], shard), events[1..], shard);
    }
  }

  predicate AllReadable(events: seq<Event>) {
    forall i :: 0 <= i < |events| && events[i].Recheck? ==> events[i].readable
  }

  /** With every recheck readable, nothing is hidden. */
  lemma {:induction false} ReadableHidesNone(s: State, events: seq<Event>, shard: Key -> nat)
    requires AllSure(s) && AllReadable(events)
    ensures RunHidesNone(s, events, shard)
    decreases |events|
  {
    if events != [] {
      ReadableHidesNone(Next(s, events[0], shard), events[1..], shard);
    }
  }

  predicate NoRename(events: seq<Event>) {
    forall i :: 0 <= i < |events| ==> !events[i].Land?
  }

  ghost predicate NoRenamedEntry(s: State) {
    && (forall key :: key in s.children ==> s.children[key].origin == ByCreate)
    && (forall i :: 0 <= i < |s.log| ==> !s.log[i].Landed?)
  }

  lemma {:induction false} RunNoRename(s: State, events: seq<Event>, shard: Key -> nat)
    requires NoRenamedEntry(s) && NoRename(events)
    ensures NoRenamedEntry(Run(s, events, shard))
    decreases |events|
  {
    if events != [] {
      RunNoRename(Next(s, events[0], shard), events[1..], shard);
    }
  }

  /** A create about to commit finds its name taken, and overwrites the entry,
      exactly when the last commit on the name is a rename's, or a create's that its
      recheck could not read. */
  lemma OverwritesExactly(events: seq<Event>, shard: Key -> nat, t: Thread)
    requires var s := Run(EMPTY, events, shard); t in s.threads && s.threads[t].Rechecked?
    ensures var s := Run(EMPTY, events, shard);
            var key := s.threads[t].key;
            var latest := Latest(s.log, key);
            && (key in s.children <==> latest.Some? && (latest.value.Landed? || HidesCreate(s, t)))
            && (key in s.children ==>
                  s.children[key] == Entry(latest.value.handle, if latest.value.Landed? then ByRename else ByCreate))
            && key in Next(s, Commit(t, true), shard).children
            && Next(s, Commit(t, true), shard).children[key] == Entry(s.threads[t].handle, ByCreate)
  {
    RunInv(EMPTY, events, shard);
    var s := Run(EMPTY, events, shard);
    assert Agrees(s, s.threads[t].key);
  }

  /** From an empty table, with readable rechecks and no renames, a create never
      overwrites, and a removal separates any two creates of a name. */
  lemma NothingOverwritten(events: seq<Event>, shard: Key -> nat, t: Thread)
    requires NoRename(events) && AllReadable(events)
    requires var s := Run(EMPTY, events, shard); t in s.threads && s.threads[t].Rechecked?
    ensures var s := Run(EMPTY, events, shard); s.threads[t].key !in s.children
  {
    OverwritesExactly(events, shard, t);
    RunNoRename(EMPTY, events, shard);
    RunSure(EMPTY, events, shard);
  }

  lemma {:induction false} RunSure(s: State, events: seq<Event>, shard: Key -> nat)
    requires AllSure(s) && AllReadable(events)
    ensures AllSure(Run(s, events, shard))
    decreases |events|
  {
    if events != [] {
      RunSure(Next(s, events[0], shard), events[1..], shard);
    }
  }

  lemma RemovalBetweenCreates(events: seq<Event>, shard: Key -> nat, i: nat, j: nat)
    requires NoRename(events) && AllReadable(events)
    requires var log := Run(EMPTY, events, shard).log;
             i < j < |log| && log[i].Created? && log[j].Created? && log[i].key == log[j].key
    ensures var log := Run(EMPTY, events, shard).log;
            exists m :: i < m < j && log[m] == Removed(log[i].key)
  {
    var log := Run(EMPTY, events, shard).log;
    ReadableHidesNone(EMPTY, events, shard);
    CreatesSeparated(EMPTY, events, shard);
    RunNoRename(EMPTY, events, shard);
    var m :| i < m < j && !log[m].Created? && log[m].key == log[i].key;
    assert log[m] == Removed(log[i].key);
  }

  lemma Unfold(s: State, ev: Event, rest: seq<Event>, shard: Key -> nat)
    ensures Run(s, [ev] + rest, shard) == Run(Next(s, ev, shard), rest, shard)
  {
    assert ([ev] + rest)[1..] == rest;
  }

  /** A first create of the name, from start to end. */
  lemma FirstCreate(key: Key, shard: Key -> nat)
    ensures Run(EMPTY, [Begin(0, key, 7)] + ([Acquire(0)] + ([Recheck(0, true)] + ([Commit(0, true)]
                       + ([Release(0)] + [])))), shard)
            == State(map[key := Entry(7, ByCreate)], map[], map[], [Created(key, 7)])
  {
    var e5 := [Release(0)] + [];
    var e4 := [Commit(0, true)] + e5;
    var e3 := [Recheck(0, true)] + e4;
    var e2 := [Acquire(0)] + e3;
    var s1 := Next(EMPTY, Begin(0, key, 7), shard);
    var s2 := Next(s1, Acquire(0), shard);
    var s3 := Next(s2, Recheck(0, true), shard);
    var s4 := Next(s3, Commit(0, true), shard);
    Unfold(EMPTY, Begin(0, key, 7), e2, shard);
    Unfold(s1, Acquire(0), e3, shard);
    Unfold(s2, Recheck(0, true), e4, shard);
    Unfold(s3, Commit(0, true), e5, shard);
    Unfold(s4, Release(0), [], shard);
    assert s3.threads[0] == Rechecked(key, 7, true);
    assert Next(s4, Release(0), shard).threads == map[] && Next(s4, Release(0), shard).holder == map[];
  }

  /** And a second one whose recheck cannot be read: a create overwrites a create. */
  lemma CreateCanBeOverwritten(key: Key, shard: Key -> nat)
    ensures var s := State(map[key := Entry(7, ByCreate)], map[], map[], [Created(key, 7)]);
            var t := Run(s, [Begin(1, key, 8)] + ([Acquire(1)] + ([Recheck(1, false)]
                            + ([Commit(1, true)] + []))), shard);
            t.log == [Created(key, 7), Created(key, 8)] && t.children == map[key := Entry(8, ByCreate)]
  {
    var s := State(map[key := Entry(7, ByCreate)], map[], map[], [Created(key, 7)]);
    var e4 := [Commit(1, true)] + [];
    var e3 := [Recheck(1, false)] + e4;
    var e2 := [Acquire(1)] + e3;
    var s1 := Next(s, Begin(1, key, 8), shard);
    var s2 := Next(s1, Acquire(1), shard);
    var s3 := Next(s2, Recheck(1, false), shard);
    Unfold(s, Begin(1, key, 8), e2, shard);
    Unfold(s1, Acquire(1), e3, shard);
    Unfold(s2, Recheck(1, false), e4, shard);
    Unfold(s3, Commit(1, true), [], shard);
    assert s3.threads[1] == Rechecked(key, 8, false);
  }

  /** The gap: a rename that lands between recheck and commit is overwritten. */
  lemma RenameCanBeOverwritten(key: Key, shard: Key -> nat)
    ensures var racing := Run(EMPTY, [Begin(0, key, 7), Acquire(0), Recheck(0, true), Land(key, 9)], shard);
            && key in racing.children && racing.children[key] == Entry(9, ByRename)
            && Next(racing, Commit(0, true), shard).children[key] == Entry(7, ByCreate)
  {
    var s1 := Next(EMPTY, Begin(0, key, 7), shard);
    var s2 := Next(s1, Acquire(0), shard);
    var s3 := Next(s2, Recheck(0, true), shard);
    var s4 := Next(s3, Land(key, 9), shard);
    var ev := [Begin(0, key, 7), Acquire(0), Recheck(0, true), Land(key, 9)];
    assert ev[1..] == [Acquire(0), Recheck(0, true), Land(key, 9)];
    assert ev[1..][1..] == [Recheck(0, true), Land(key, 9)] && ev[1..][1..][1..] == [Land(key, 9)];
    assert Run(s3, [Land(key, 9)], shard) == Run(s4, [], shard) == s4;
    assert Run(s2, [Recheck(0, true), Land(key, 9)], shard) == s4;
    assert Run(s1, ev[1..], shard) == s4;
    assert s4.threads[0] == Rechecked(key, 7, true);
  }
}
