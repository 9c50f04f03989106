/** Removing one directory while entries come and go in it: the emptiness check of
    rmdir and the parent check of create lie before their transactions, and neither
    holds a lock that the other takes.  Any number of calls, any schedule. */
module RmdirRace {

  import opened Common

  type Thread = nat
  type Name = string

  /** `checked` is the place in the history where the directory was listed. */
  datatype Phase =
    | Creating(name: Name)
    | Removing(listed: bool, checked: nat)

  /** The history of entries while the directory lives. */
  datatype Item = Added(name: Name) | Gone(name: Name)

  datatype State = State(alive: bool, entries: set<Name>, threads: map<Thread, Phase>, log: seq<Item>)

  datatype Event =
    | BeginCreate(thread: Thread, name: Name)
    | CommitCreate(thread: Thread)
    | RemoveEntry(name: Name)
    | BeginRmdir(thread: Thread, listable: bool)
    | CommitRmdir(thread: Thread)

  const NEW_DIRECTORY := State(true, {}, map[], [])

  function Next(s: State, ev: Event): State {
    match ev
    case BeginCreate(t, name) =>
      if t in s.threads || !s.alive || name in s.entries then s
      else s.(threads := s.threads[t := Creating(name)])
    case CommitCreate(t) =>
      if t !in s.threads || !s.threads[t].Creating? then s
      else
        var name := s.threads[t].name;
        var u := s.(threads := s.threads - {t});
        if name in s.entries then u
        else u.(entries := s.entries + {name}, log := if s.alive then s.log + [Added(name)] else s.log)
    case RemoveEntry(name) =>
      if !s.alive || name !in s.entries then s
      else s.(entries := s.entries - {name}, log := s.log + [Gone(name)])
    case BeginRmdir(t, listable) =>
      if t in s.threads || !s.alive || (listable && s.entries != {}) then s
      else s.(threads := s.threads[t := Removing(listable, |s.log|)])
    case CommitRmdir(t) =>
      if t !in s.threads || !s.threads[t].Removing? then s
      else if !s.alive then s.(threads := s.threads - {t})
      else s.(threads := s.threads - {t}, alive := false, entries := {})
  }

  function Run(s: State, events: seq<Event>): State
    decreases |events|
  {
    if events == [] then s else Run(Next(s, events[0]), events[1..])
  }

  /** With nobody in the way, a create fills a live directory, and an rmdir removes an
      empty one and is refused a filled one it can list. */
  lemma UncontendedCalls(s: State, t: Thread, name: Name)
    requires t !in s.threads && s.alive
    ensures var u := Next(Next(s, BeginCreate(t, name)), CommitCreate(t));
            u.alive && u.entries == s.entries + {name} && u.threads == s.threads
    ensures var u := Next(Next(s, BeginRmdir(t, true)), CommitRmdir(t));
            u.threads == s.threads && if s.entries == {} then !u.alive else u == s
    ensures var u := Next(Next(s, BeginRmdir(t, false)), CommitRmdir(t));
            u.threads == s.threads && !u.alive && u.entries == {}
  {
  }

  /** The last thing that happened to a name. */
  function Latest(log: seq<Item>, name: Name): Option<Item> {
    if log == [] then None
    else if log[|log| - 1].name == name then Some(log[|log| - 1])
    else Latest(log[..|log| - 1], name)
  }

  predicate Present(log: seq<Item>, name: Name) {
    Latest(log, name) == Some(Added(name))
  }

  lemma LatestAppend(log: seq<Item>, item: Item, name: Name)
    ensures Latest(log + [item], name) == if item.name == name then Some(item) else Latest(log, name)
  {
    assert (log + [item])[..|log|] == log;
  }

  /** While the directory lives its entries are those its history leaves, and a
      listing that was read found none. */
  ghost predicate Inv(s: State) {
    && (s.alive ==> forall name :: name in s.entries <==> Present(s.log, name))
    && (forall t :: t in s.threads && s.threads[t].Removing? ==>
          && s.threads[t].checked <= |s.log|
          && (s.threads[t].listed ==> forall name :: !Present(s.log[..s.threads[t].checked], name)))
  }

  /** What an event adds to the history. */
  function Logged(s: State, ev: Event): (items: seq<Item>)
    ensures |items| <= 1
    ensures Next(s, ev).log == s.log + items
  {
    match ev
    case CommitCreate(t) =>
      if t in s.threads && s.threads[t].Creating? && s.threads[t].name !in s.entries && s.alive
      then [Added(s.threads[t].name)] else []
    case RemoveEntry(name) => if s.alive && name in s.entries then [Gone(name)] else []
    case _ => []
  }

  lemma StepEntries(s: State, ev: Event, name: Name)
    requires s.alive ==> (name in s.entries <==> Present(s.log, name))
    ensures var t := Next(s, ev); t.alive ==> (name in t.entries <==> Present(t.log, name))
  {
    var items := Logged(s, ev);
    if items != [] {
      LatestAppend(s.log, items[0], name);
      assert items == [items[0]];
    } else {
      assert s.log + items == s.log;
    }
  }

  lemma StepChecked(s: State, ev: Event, t: Thread)
    requires Inv(s) && t in Next(s, ev).threads && Next(s, ev).threads[t].Removing?
    ensures var u := Next(s, ev);
            && u.threads[t].checked <= |u.log|
            && (u.threads[t].listed ==> forall name :: !Present(u.log[..u.threads[t].checked], name))
  {
    var u := Next(s, ev);
    var p := u.threads[t];
    assert u.log == s.log + Logged(s, ev);
    assert u.log[..p.checked] == s.log[..p.checked];
    assert s.log[..|s.log|] == s.log;
  }

  lemma StepInv(s: State, ev: Event)
    requires Inv(s)
    ensures Inv(Next(s, ev))
  {
    var u := Next(s, ev);
    forall name ensures u.alive ==> (name in u.entries <==> Present(u.log, name)) {
      StepEntries(s, ev, name);
    }
    forall t | t in u.threads && u.threads[t].Removing?
      ensures u.threads[t].checked <= |u.log|
      ensures u.threads[t].listed ==> forall name :: !Present(u.log[..u.threads[t].checked], name)
    {
      StepChecked(s, ev, t);
    }
  }

  lemma {:induction false} RunInv(s: State, events: seq<Event>)
    requires Inv(s)
    ensures Inv(Run(s, events))
    decreases |events|
  {
    if events != [] {
      StepInv(s, events[0]);
      RunInv(Next(s, events[0]), events[1..]);
    }
  }

  /** A name not present at the start of a stretch of history is present at its end
      exactly when the stretch itself leaves it. */
  lemma {:induction false} PresentSince(log: seq<Item>, i: nat, name: Name)
    requires i <= |log| && !Present(log[..i], name)
    ensures Present(log, name) <==> Present(log[i..], name)
    decreases |log|
  {
    if i == |log| {
      assert log[..i] == log;
    } else {
      var front, last := log[..|log| - 1], log[|log| - 1];
      assert front[..i] == log[..i] && log == front + [last] && log[i..] == front[i..] + [last];
      PresentSince(front, i, name);
      LatestAppend(front, last, name);
      LatestAppend(front[i..], last, name);
    }
  }

  /** An rmdir about to commit after a readable listing deletes an entry exactly when
      it was created after the listing and not removed since. */
  lemma RmdirDeletesExactly(events: seq<Event>, t: Thread, name: Name)
    requires var s := Run(NEW_DIRECTORY, events); s.alive && t in s.threads && s.threads[t].Removing?
    ensures var s := Run(NEW_DIRECTORY, events);
            && s.threads[t].checked <= |s.log|
            && (s.threads[t].listed ==>
                  (name in s.entries <==> Present(s.log[s.threads[t].checked..], name)))
            && !Next(s, CommitRmdir(t)).alive && Next(s, CommitRmdir(t)).entries == {}
  {
    RunInv(NEW_DIRECTORY, events);
    var s := Run(NEW_DIRECTORY, events);
    if s.threads[t].listed {
      assert !Present(s.log[..s.threads[t].checked], name);
      PresentSince(s.log, s.threads[t].checked, name);
    }
  }

  /** An rmdir commits during the events. */
  predicate Removes(s: State, events: seq<Event>)
    decreases |events|
  {
    events != [] &&
    ((events[0].CommitRmdir? && events[0].thread in s.threads && s.threads[events[0].thread].Removing?)
     || Removes(Next(s, events[0]), events[1..]))
  }

  lemma {:induction false} GoneMeansRemoved(s: State, events: seq<Event>)
    ensures Run(s, events).alive <==> s.alive && !Removes(s, events)
    decreases |events|
  {
    if events != [] {
      GoneMeansRemoved(Next(s, events[0]), events[1..]);
    }
  }

  /** A create that found its directory adds its entry whatever happens in between,
      and leaves it in a directory that is gone exactly when an rmdir committed in
      between. */
  lemma CreateIntoDeleted(events: seq<Event>, t: Thread, name: Name, later: seq<Event>)
    requires var s := Run(NEW_DIRECTORY, events); s.alive && t !in s.threads && name !in s.entries
    requires var u := Run(Next(Run(NEW_DIRECTORY, events), BeginCreate(t, name)), later);
             t in u.threads && u.threads[t] == Creating(name)
    ensures var m := Next(Run(NEW_DIRECTORY, events), BeginCreate(t, name));
            var w := Next(Run(m, later), CommitCreate(t));
            name in w.entries && (!w.alive <==> Removes(m, later))
  {
    GoneMeansRemoved(Next(Run(NEW_DIRECTORY, events), BeginCreate(t, name)), later);
  }

  lemma Unfold(s: State, ev: Event, rest: seq<Event>)
    ensures Run(s, [ev] + rest) == Run(Next(s, ev), rest)
  {
    assert ([ev] + rest)[1..] == rest;
  }

  /** Both can happen: an rmdir lists an empty directory, a create commits, and the
      rmdir deletes what it made; and with the commits the other way round, the entry
      outlives its directory. */
  lemma FilledDirectoryDeleted(name: Name)
    ensures var s := Run(NEW_DIRECTORY, [BeginRmdir(0, true)] + ([BeginCreate(1, name)] + []));
            var filled := Next(s, CommitCreate(1));
            var emptied := Next(s, CommitRmdir(0));
            && filled.entries == {name} && 0 in filled.threads && filled.threads[0] == Removing(true, 0)
            && !Next(filled, CommitRmdir(0)).alive && Next(filled, CommitRmdir(0)).entries == {}
            && !emptied.alive && Next(emptied, CommitCreate(1)).entries == {name}
  {
    var s1 := Next(NEW_DIRECTORY, BeginRmdir(0, true));
    var s2 := Next(s1, BeginCreate(1, name));
    Unfold(NEW_DIRECTORY, BeginRmdir(0, true), [BeginCreate(1, name)] + []);
    Unfold(s1, BeginCreate(1, name), []);
    assert s2.threads == map[0 := Removing(true, 0), 1 := Creating(name)];
  }
}
