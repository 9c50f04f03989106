/** Truncate and unlink against a flush already under way.  The per-file flush
    lock is meant to keep a flush from re-applying a size it popped before the
    truncate; the lock table drops its entry whenever pending state is popped. */
module FlushLock {

  import opened Common

  type Actor = nat
  type Mutex = nat

  /** Where a flush, or a truncate (to a size) or last-link unlink (no size), stands. */
  datatype Phase =
    | FlushWants(mutex: Mutex)
    | FlushHolds(mutex: Mutex)
    | Popped(mutex: Mutex, size: nat)
    | SetterWants(mutex: Mutex, target: Option<nat>)
    | SetterHolds(mutex: Mutex, target: Option<nat>)
    | SetterStored(mutex: Mutex)
    | Leaving(mutex: Mutex)

  /** `stable` locks keep their table entry; the code's do not. */
  datatype State = State(
    stable: bool,
    stored: nat,
    pending: Option<nat>,
    table: Option<Mutex>,
    created: nat,
    held: map<Mutex, Actor>,
    actors: map<Actor, Phase>)

  datatype Event =
    | Write(size: nat)
    | StartFlush(actor: Actor)
    | StartSetter(actor: Actor, target: Option<nat>)
    | Lock(actor: Actor)
    | Pop(actor: Actor)
    | Commit(actor: Actor, succeeds: bool)
    | Store(actor: Actor, succeeds: bool)
    | Discard(actor: Actor)
    | Unlock(actor: Actor)

  function Fresh(stable: bool, size: nat): State {
    State(stable, size, None, None, 0, map[], map[])
  }

  /** GetFlushLock: the table's mutex, or a new one entered into it. */
  function WithLock(s: State): State {
    if s.table.Some? then s else s.(table := Some(s.created), created := s.created + 1)
  }

  /** PopPending: the state goes, and with it, unless stable, the table entry. */
  function Popping(s: State): State {
    if s.pending.None? then s
    else s.(pending := None, table := if s.stable then s.table else None)
  }

  function At(s: State, a: Actor): Option<Phase> {
    if a in s.actors then Some(s.actors[a]) else None
  }

  function Next(s: State, ev: Event): State {
    match ev
    case Write(size) => s.(pending := Some(if s.pending.Some? then Max(size, s.pending.value) else size))
    case StartFlush(a) =>
      if a in s.actors then s
      else var t := WithLock(s); t.(actors := t.actors[a := FlushWants(t.table.value)])
    case StartSetter(a, target) =>
      if a in s.actors then s
      else var t := WithLock(s); t.(actors := t.actors[a := SetterWants(t.table.value, target)])
    case Lock(a) =>
      (match At(s, a)
       case Some(FlushWants(m)) =>
         if m in s.held then s else s.(held := s.held[m := a], actors := s.actors[a := FlushHolds(m)])
       case Some(SetterWants(m, target)) =>
         if m in s.held then s else s.(held := s.held[m := a], actors := s.actors[a := SetterHolds(m, target)])
       case _ => s)
    case Pop(a) =>
      (match At(s, a)
       case Some(FlushHolds(m)) =>
         Popping(s).(actors := s.actors[a := if s.pending.Some? then Popped(m, s.pending.value) else Leaving(m)])
       case _ => s)
    case Commit(a, succeeds) =>
      (match At(s, a)
       case Some(Popped(m, size)) =>
         var t := s.(actors := s.actors[a := Leaving(m)]);
         if succeeds then t.(stored := Max(size, s.stored))
         else t.(pending := Some(if s.pending.Some? then Max(size, s.pending.value) else size))
       case _ => s)
    case Store(a, succeeds) =>
      (match At(s, a)
       case Some(SetterHolds(m, target)) =>
         if !succeeds then s.(actors := s.actors[a := Leaving(m)])
         else s.(stored := if target.Some? then target.value else s.stored, actors := s.actors[a := SetterStored(m)])
       case _ => s)
    case Discard(a) =>
      (match At(s, a)
       case Some(SetterStored(m)) => Popping(s).(actors := s.actors[a := Leaving(m)])
       case _ => s)
    case Unlock(a) =>
      (match At(s, a)
       case Some(Leaving(m)) => s.(held := s.held - {m}, actors := s.actors - {a})
       case _ => s)
  }

  function Run(s: State, events: seq<Event>): State
    decreases |events|
  {
    if events == [] then s else Run(Next(s, events[0]), events[1..])
  }

  // ---- with one stable lock per file ----

  predicate Holds(p: Phase) {
    !p.FlushWants? && !p.SetterWants?
  }

  /** Every actor uses the one mutex of the table, and the actor inside the
      critical section is the one that holds it. */
  ghost predicate Exclusive(s: State) {
    && s.stable
    && (forall a :: a in s.actors ==> s.table == Some(s.actors[a].mutex))
    && (forall a :: a in s.actors && Holds(s.actors[a]) ==>
          s.actors[a].mutex in s.held && s.held[s.actors[a].mutex] == a)
  }

  lemma StepExclusive(s: State, ev: Event)
    requires Exclusive(s)
    ensures Exclusive(Next(s, ev))
  {
  }

  lemma {:induction false} RunExclusive(s: State, events: seq<Event>)
    requires Exclusive(s)
    ensures Exclusive(Run(s, events))
    decreases |events|
  {
    if events != [] {
      StepExclusive(s, events[0]);
      RunExclusive(Next(s, events[0]), events[1..]);
    }
  }

  // ---- sizes after a discard ----

  /** No buffered or popped size exceeds the limit. */
  ghost predicate Bounded(s: State, limit: nat) {
    && s.stored <= limit
    && (s.pending.Some? ==> s.pending.value <= limit)
    && (forall a :: a in s.actors && s.actors[a].Popped? ==> s.actors[a].size <= limit)
  }

  /** The sizes an event brings in: a write, or a later truncate's own size. */
  function Raise(s: State, limit: nat, ev: Event): nat {
    match ev
    case Write(size) => Max(size, limit)
    case Store(a, true) =>
      (match At(s, a)
       case Some(SetterHolds(_, Some(n))) => Max(n, limit)
       case _ => limit)
    case _ => limit
  }

  function RunRaise(s: State, limit: nat, events: seq<Event>): nat
    decreases |events|
  {
    if events == [] then limit else RunRaise(Next(s, events[0]), Raise(s, limit, events[0]), events[1..])
  }

  lemma StepBounded(s: State, limit: nat, ev: Event)
    requires Bounded(s, limit)
    ensures Bounded(Next(s, ev), Raise(s, limit, ev))
  {
  }

  lemma {:induction false} RunBounded(s: State, limit: nat, events: seq<Event>)
    requires Bounded(s, limit)
    ensures Bounded(Run(s, events), RunRaise(s, limit, events))
    decreases |events|
  {
    if events != [] {
      StepBounded(s, limit, events[0]);
      RunBounded(Next(s, events[0]), Raise(s, limit, events[0]), events[1..]);
    }
  }

  /** Truncate safety: with stable locks, whatever the schedule before and after,
      once the discard of a truncate or unlink is done no size recorded before it
      can show again.  Only later writes and truncates raise the stored size. */
  lemma DiscardIsFinal(size: nat, before: seq<Event>, a: Actor, after: seq<Event>)
    requires var s := Run(Fresh(true, size), before); a in s.actors && s.actors[a].SetterStored?
    ensures var s := Run(Fresh(true, size), before);
            var t := Next(s, Discard(a));
            t.stored == s.stored && Run(t, after).stored <= RunRaise(t, s.stored, after)
  {
    var s := Run(Fresh(true, size), before);
    RunExclusive(Fresh(true, size), before);
    var t := Next(s, Discard(a));
    assert Bounded(t, s.stored);
    RunBounded(t, s.stored, after);
  }

  // ---- no size is lost ----

  /** Some buffered, popped or stored size is n. */
  ghost predicate Attains(s: State, n: nat) {
    || s.stored == n || s.pending == Some(n)
    || exists a :: a in s.actors && s.actors[a].Popped? && s.actors[a].size == n
  }

  ghost predicate OnlyFlushes(s: State) {
    forall a :: a in s.actors ==> var p := s.actors[a]; !p.SetterWants? && !p.SetterHolds? && !p.SetterStored?
  }

  /** n is the largest of the start and the sizes written. */
  ghost predicate IsLargest(n: nat, start: nat, events: seq<Event>) {
    && n >= start && (forall i :: 0 <= i < |events| && events[i].Write? ==> n >= events[i].size)
    && (n == start || exists i :: 0 <= i < |events| && events[i] == Write(n))
  }

  lemma PopAttains(s: State, n: nat, a: Actor)
    requires Attains(s, n)
    ensures Attains(Next(s, Pop(a)), n)
  {
    var t := Next(s, Pop(a));
    if s.pending == Some(n) && At(s, a).Some? && At(s, a).value.FlushHolds? {
      assert t.actors[a] == Popped(s.actors[a].mutex, n);
    }
    if b :| b in s.actors && s.actors[b].Popped? && s.actors[b].size == n {
      assert t.actors[b] == s.actors[b];
    }
  }

  lemma CommitAttains(s: State, n: nat, a: Actor, succeeds: bool)
    requires Bounded(s, n) && Attains(s, n)
    ensures Attains(Next(s, Commit(a, succeeds)), n)
  {
    var t := Next(s, Commit(a, succeeds));
    if b :| b in s.actors && s.actors[b].Popped? && s.actors[b].size == n && b != a {
      assert t.actors[b] == s.actors[b];
    }
  }

  lemma StepAttains(s: State, n: nat, ev: Event)
    requires Bounded(s, n) && Attains(s, n) && OnlyFlushes(s) && !ev.StartSetter?
    ensures Attains(Next(s, ev), if ev.Write? then Max(ev.size, n) else n)
  {
    if ev.Pop? {
      PopAttains(s, n, ev.actor);
    } else if ev.Commit? {
      CommitAttains(s, n, ev.actor, ev.succeeds);
    } else if a :| a in s.actors && s.actors[a].Popped? && s.actors[a].size == n {
      assert a in Next(s, ev).actors && Next(s, ev).actors[a] == s.actors[a];
    }
  }

  lemma StepOnlyFlushes(s: State, n: nat, ev: Event)
    requires OnlyFlushes(s) && !ev.StartSetter?
    ensures OnlyFlushes(Next(s, ev)) && Raise(s, n, ev) == if ev.Write? then Max(ev.size, n) else n
  {
  }

  lemma {:induction false} RunAttains(s: State, n: nat, events: seq<Event>) returns (m: nat)
    requires Bounded(s, n) && Attains(s, n) && OnlyFlushes(s)
    requires forall i :: 0 <= i < |events| ==> !events[i].StartSetter?
    ensures Bounded(Run(s, events), m) && Attains(Run(s, events), m) && IsLargest(m, n, events)
    decreases |events|
  {
    m := n;
    if events != [] {
      var ev, rest := events[0], events[1..];
      StepBounded(s, n, ev);
      StepAttains(s, n, ev);
      StepOnlyFlushes(s, n, ev);
      var mid := Raise(s, n, ev);
      m := RunAttains(Next(s, ev), mid, rest);
      if m != n && m != mid {
        var i :| 0 <= i < |rest| && rest[i] == Write(m);
        assert events[i + 1] == Write(m);
      }
      assert forall i :: 0 < i < |events| ==> events[i] == rest[i - 1];
    }
  }

  /** Under any schedule of writes and flushes, failed ones included and with either
      kind of lock, the largest of the starting size and the sizes written is stored,
      buffered or in a flush under way, and nothing larger is. */
  lemma SizesKept(stable: bool, size: nat, events: seq<Event>)
    requires forall i :: 0 <= i < |events| ==> !events[i].StartSetter?
    ensures exists n :: Bounded(Run(Fresh(stable, size), events), n) && Attains(Run(Fresh(stable, size), events), n)
                        && IsLargest(n, size, events)
  {
    var n := RunAttains(Fresh(stable, size), size, events);
  }

  // ---- what each step does ----

  /** A mutex is taken by who asks for it when it is free, and by nobody otherwise. */
  lemma LockTaken(s: State, a: Actor)
    requires a in s.actors && !Holds(s.actors[a])
    ensures var m := s.actors[a].mutex;
            var t := Next(s, Lock(a));
            if m in s.held then t == s
            else t.held == s.held[m := a] && Holds(t.actors[a]) && t.actors[a].mutex == m
                 && t.stored == s.stored && t.pending == s.pending
  {
  }

  /** A truncate stores its size and then discards what is buffered; an unlink only
      discards; one that cannot store does neither. */
  lemma SetterSteps(s: State, a: Actor)
    requires a in s.actors && s.actors[a].SetterHolds?
    ensures var p := s.actors[a];
            var t := Next(s, Store(a, true));
            var u := Next(t, Discard(a));
            && t.stored == (if p.target.Some? then p.target.value else s.stored) && t.pending == s.pending
            && u.stored == t.stored && u.pending == None
            && Next(u, Unlock(a)).held == s.held - {p.mutex} && a !in Next(u, Unlock(a)).actors
    ensures var t := Next(s, Store(a, false));
            && t.stored == s.stored && t.pending == s.pending && Next(t, Discard(a)) == t
            && Next(t, Unlock(a)).held == s.held - {s.actors[a].mutex}
  {
  }

  /** A flush takes what is buffered and stores it if it is larger; one that cannot
      puts it back. */
  lemma FlushSteps(s: State, a: Actor)
    requires a in s.actors && s.actors[a].FlushHolds? && s.pending.Some?
    ensures var t := Next(s, Pop(a));
            var u, v := Next(t, Commit(a, true)), Next(t, Commit(a, false));
            && t.pending == None && t.stored == s.stored
            && u.pending == None && u.stored == (if s.pending.value > s.stored then s.pending.value else s.stored)
            && v.pending == s.pending && v.stored == s.stored
            && Next(u, Unlock(a)).held == s.held - {s.actors[a].mutex}
  {
  }

  // ---- with the table as written ----

  predicate Silent(s: State, events: seq<Event>)
    decreases |events|
  {
    events != [] ==> Raise(s, 0, events[0]) == 0 && Silent(Next(s, events[0]), events[1..])
  }

  lemma {:induction false} SilentRaisesNothing(s: State, limit: nat, events: seq<Event>)
    requires Silent(s, events)
    ensures RunRaise(s, limit, events) == limit
    decreases |events|
  {
    if events != [] {
      SilentRaisesNothing(Next(s, events[0]), limit, events[1..]);
    }
  }

  /** As the table is written, a finished truncate can be undone exactly when a
      flush still holds a larger popped size at the moment of the discard. */
  lemma TruncateUndone(s: State)
    requires s.pending.None?
    ensures (exists events :: Silent(s, events) && Run(s, events).stored > s.stored)
            <==> exists a :: a in s.actors && s.actors[a].Popped? && s.actors[a].size > s.stored
  {
    if a :| a in s.actors && s.actors[a].Popped? && s.actors[a].size > s.stored {
      var events := [Commit(a, true)];
      assert events[1..] == [];
      assert Run(s, events) == Run(Next(s, Commit(a, true)), []);
      assert Silent(Next(s, events[0]), events[1..]);
      assert Silent(s, events) && Run(s, events).stored > s.stored;
    } else {
      assert Bounded(s, s.stored);
      forall events | Silent(s, events) ensures Run(s, events).stored <= s.stored {
        RunBounded(s, s.stored, events);
        SilentRaisesNothing(s, s.stored, events);
      }
    }
  }

  /** A flush of `size` bytes that has popped its state: the table entry is gone
      while the flush still holds its mutex. */
  function FlushInside(size: nat): State {
    State(false, 0, None, None, 1, map[0 := 0], map[0 := Popped(0, size)])
  }

  /** A truncate inside at the same time, holding a second mutex. */
  function BothInside(size: nat, small: nat): State {
    State(false, small, None, Some(1), 2, map[0 := 0, 1 := 1], map[0 := Popped(0, size), 1 := SetterStored(1)])
  }

  lemma Unfold(s: State, ev: Event, rest: seq<Event>)
    ensures Run(s, [ev] + rest) == Run(Next(s, ev), rest)
  {
    assert ([ev] + rest)[1..] == rest;
  }

  lemma FlushGetsInside(size: nat)
    ensures Run(Fresh(false, 0), [Write(size)] + ([StartFlush(0)] + ([Lock(0)] + ([Pop(0)] + [])))) == FlushInside(size)
  {
    var s1 := State(false, 0, Some(size), None, 0, map[], map[]);
    var s2 := State(false, 0, Some(size), Some(0), 1, map[], map[0 := FlushWants(0)]);
    var s3 := State(false, 0, Some(size), Some(0), 1, map[0 := 0], map[0 := FlushHolds(0)]);
    Unfold(Fresh(false, 0), Write(size), [StartFlush(0)] + ([Lock(0)] + ([Pop(0)] + [])));
    Unfold(s1, StartFlush(0), [Lock(0)] + ([Pop(0)] + []));
    Unfold(s2, Lock(0), [Pop(0)] + []);
    Unfold(s3, Pop(0), []);
  }

  lemma TruncateGetsInside(size: nat, small: nat)
    ensures Run(FlushInside(size), [StartSetter(1, Some(small))] + ([Lock(1)] + ([Store(1, true)] + [])))
            == BothInside(size, small)
  {
    var s0 := FlushInside(size);
    var s1 := s0.(table := Some(1), created := 2, actors := s0.actors[1 := SetterWants(1, Some(small))]);
    var s2 := s1.(held := s0.held[1 := 1], actors := s0.actors[1 := SetterHolds(1, Some(small))]);
    Unfold(s0, StartSetter(1, Some(small)), [Lock(1)] + ([Store(1, true)] + []));
    Unfold(s1, Lock(1), [Store(1, true)] + []);
    assert s1.actors[1 := SetterHolds(1, Some(small))] == s2.actors;
    Unfold(s2, Store(1, true), []);
    assert s2.actors[1 := SetterStored(1)] == BothInside(size, small).actors;
  }

  /** The code's table lets it happen: with both inside, the truncate finishes
      and the flush then re-grows the file. */
  lemma TruncateIsUndone(size: nat, small: nat)
    requires small < size
    ensures var t := Next(BothInside(size, small), Discard(1));
            t.stored == small && Next(t, Commit(0, true)).stored == size
  {
    var t := Next(BothInside(size, small), Discard(1));
    assert At(t, 0) == Some(Popped(0, size));
  }
}
