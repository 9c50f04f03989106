/** Registering and removing shares while lock recovery runs outside the service
    mutex: the four per-share tables, the removal generations, and the grace
    coordinator's start and end signals. */
module ShareRegistry {

  import opened Common

  type Share = string

  /** What the service mutex guards.  `managers` says of each live lock manager
      whether it is in its grace period; `starts` and `ends` count the signals to
      the coordinator; `dropped` counts managers in grace that lost the race to a
      published one, for which no end is signalled. */
  datatype Tables = Tables(
    stores: map<Share, nat>,
    cache: map<Share, nat>,
    managers: map<Share, bool>,
    notifiers: set<Share>,
    removeGen: map<Share, nat>,
    starts: nat, ends: nat, dropped: nat)

  const NO_SHARES := Tables(map[], map[], map[], {}, map[], 0, 0, 0)

  function Generation(t: Tables, share: Share): nat {
    if share in t.removeGen then t.removeGen[share] else 0
  }

  // ---- the three critical sections ----

  /** A share that already has a lock manager only gets its store replaced. */
  function Replaced(t: Tables, share: Share, store: nat): Tables {
    t.(stores := t.stores[share := store], cache := t.cache[share := store])
  }

  /** The publish re-check: lost to a winner, removed meanwhile, or published. */
  function Finished(t: Tables, share: Share, store: nat, startGen: nat, inGrace: bool): Tables {
    if share in t.managers then t.(dropped := t.dropped + if inGrace then 1 else 0)
    else if Generation(t, share) != startGen then t.(ends := t.ends + if inGrace then 1 else 0)
    else t.(stores := t.stores[share := store], cache := t.cache[share := store],
            managers := t.managers[share := inGrace], notifiers := t.notifiers + {share})
  }

  function Removed(t: Tables, share: Share): Tables {
    t.(stores := t.stores - {share}, cache := t.cache - {share}, managers := t.managers - {share},
       notifiers := t.notifiers - {share},
       removeGen := t.removeGen[share := Generation(t, share) + 1],
       ends := t.ends + if share in t.managers && t.managers[share] then 1 else 0)
  }

  class Service {
    var stores: map<Share, nat>
    var storeCache: map<Share, nat>
    var lockManagers: map<Share, bool>
    var dirChangeNotifiers: set<Share>
    var removeGen: map<Share, nat>
    var starts: nat
    var ends: nat
    ghost var dropped: nat

    constructor ()
      ensures Snapshot() == NO_SHARES
    {
      stores, storeCache, lockManagers, dirChangeNotifiers, removeGen := map[], map[], map[], {}, map[];
      starts, ends, dropped := 0, 0, 0;
    }

    ghost function Snapshot(): Tables
      reads this
    {
      Tables(stores, storeCache, lockManagers, dirChangeNotifiers, removeGen, starts, ends, dropped)
    }

    /** First critical section of RegisterStoreForShare: done, or the generation
        to compare at publish. */
    method BeginRegister(share: Share, store: nat) returns (startGen: Option<nat>)
      modifies this
      ensures share in old(lockManagers) ==>
                startGen.None? && Snapshot() == Replaced(old(Snapshot()), share, store)
      ensures share !in old(lockManagers) ==>
                startGen == Some(Generation(Snapshot(), share)) && Snapshot() == old(Snapshot())
    {
      if share in lockManagers {
        stores := stores[share := store];
        storeCache := storeCache[share := store];
        return None;
      }
      startGen := Some(if share in removeGen then removeGen[share] else 0);
    }

    /** Second critical section: publish all tables together or none. */
    method FinishRegister(share: Share, store: nat, startGen: nat, inGrace: bool)
      modifies this
      ensures Snapshot() == Finished(old(Snapshot()), share, store, startGen, inGrace)
    {
      var lmExists := share in lockManagers;
      var gen := if share in removeGen then removeGen[share] else 0;
      var removedMidFlight := !lmExists && gen != startGen;
      if lmExists || removedMidFlight {
        if removedMidFlight && inGrace { ends := ends + 1; }
        if lmExists && inGrace { dropped := dropped + 1; }
        return;
      }
      stores := stores[share := store];
      storeCache := storeCache[share := store];
      lockManagers := lockManagers[share := inGrace];
      dirChangeNotifiers := dirChangeNotifiers + {share};
    }

    method RemoveStoreForShare(share: Share)
      modifies this
      ensures Snapshot() == Removed(old(Snapshot()), share)
    {
      if share in lockManagers && lockManagers[share] { ends := ends + 1; }
      stores := stores - {share};
      storeCache := storeCache - {share};
      lockManagers := lockManagers - {share};
      dirChangeNotifiers := dirChangeNotifiers - {share};
      removeGen := removeGen[share := (if share in removeGen then removeGen[share] else 0) + 1];
    }
  }

  // ---- any number of concurrent calls ----

  type Caller = nat

  /** A registration between its critical sections; `began` is the place of its
      beginning in the history. */
  datatype Registration =
    | Recovering(share: Share, store: nat, startGen: nat, began: nat)
    | Recovered(share: Share, store: nat, startGen: nat, began: nat, inGrace: bool)

  datatype Item =
    | Began(caller: Caller, share: Share)
    | Published(share: Share, began: nat, store: nat)
    | Replacement(share: Share, store: nat)
    | Removal(share: Share)

  datatype State = State(tables: Tables, regs: map<Caller, Registration>, log: seq<Item>)

  datatype Event =
    | Register(caller: Caller, share: Share, store: nat)
    | Recover(caller: Caller, entersGrace: bool)
    | Finish(caller: Caller)
    | Remove(share: Share)
    | GraceExpires(share: Share)
    | UnpublishedGraceExpires(caller: Caller)

  predicate Publishes(t: Tables, r: Registration) {
    r.share !in t.managers && Generation(t, r.share) == r.startGen
  }

  const EMPTY := State(NO_SHARES, map[], [])

  /** What an event adds to the history. */
  function Logged(s: State, ev: Event): (items: seq<Item>)
    ensures |items| <= 1
    ensures forall share :: items == [Removal(share)] <==> ev == Remove(share)
  {
    match ev
    case Register(c, share, store) =>
      if c in s.regs || share == "" then []
      else if share in s.tables.managers then [Replacement(share, store)] else [Began(c, share)]
    case Finish(c) =>
      if c in s.regs && s.regs[c].Recovered? && Publishes(s.tables, s.regs[c])
      then [Published(s.regs[c].share, s.regs[c].began, s.regs[c].store)] else []
    case Remove(share) => [Removal(share)]
    case _ => []
  }

  function Step(s: State, ev: Event): State {
    var t := s.tables;
    match ev
    case Register(c, share, store) =>
      if c in s.regs || share == "" then s
      else if share in t.managers then s.(tables := Replaced(t, share, store))
      else s.(regs := s.regs[c := Recovering(share, store, Generation(t, share), |s.log|)])
    case Recover(c, entersGrace) =>
      if c in s.regs && s.regs[c].Recovering? then
        var r := s.regs[c];
        s.(regs := s.regs[c := Recovered(r.share, r.store, r.startGen, r.began, entersGrace)],
           tables := t.(starts := t.starts + if entersGrace then 1 else 0))
      else s
    case Finish(c) =>
      if c in s.regs && s.regs[c].Recovered? then
        var r := s.regs[c];
        s.(tables := Finished(t, r.share, r.store, r.startGen, r.inGrace), regs := s.regs - {c})
      else s
    case Remove(share) => s.(tables := Removed(t, share))
    case GraceExpires(share) =>
      if share in t.managers && t.managers[share]
      then s.(tables := t.(managers := t.managers[share := false], ends := t.ends + 1))
      else s
    case UnpublishedGraceExpires(c) =>
      if c in s.regs && s.regs[c].Recovered? && s.regs[c].inGrace
      then s.(regs := s.regs[c := s.regs[c].(inGrace := false)], tables := t.(ends := t.ends + 1))
      else s
  }

  function Next(s: State, ev: Event): State {
    Step(s, ev).(log := s.log + Logged(s, ev))
  }

  function Run(s: State, events: seq<Event>): State
    decreases |events|
  {
    if events == [] then s else Run(Next(s, events[0]), events[1..])
  }

  // ---- the tables move together ----

  predicate SameKeys(t: Tables) {
    t.stores.Keys == t.managers.Keys && t.notifiers == t.managers.Keys && t.cache == t.stores
  }

  // ---- the coordinator's signals balance ----

  ghost function GraceManagers(s: State): set<Share> {
    set share | share in s.tables.managers && s.tables.managers[share]
  }

  ghost function GraceRegistrations(s: State): set<Caller> {
    set c | c in s.regs && s.regs[c].Recovered? && s.regs[c].inGrace
  }

  ghost predicate Balanced(s: State) {
    s.tables.starts ==
      s.tables.ends + |GraceManagers(s)| + |GraceRegistrations(s)| + s.tables.dropped
  }

  lemma StepSameKeys(s: State, ev: Event)
    requires SameKeys(s.tables)
    ensures SameKeys(Next(s, ev).tables)
  {
  }

  lemma RecoverBalanced(s: State, c: Caller, entersGrace: bool)
    requires Balanced(s) && c in s.regs && s.regs[c].Recovering?
    ensures Balanced(Next(s, Recover(c, entersGrace)))
  {
    var t := Next(s, Recover(c, entersGrace));
    assert GraceManagers(t) == GraceManagers(s);
    assert GraceRegistrations(t) == GraceRegistrations(s) + (if entersGrace then {c} else {});
  }

  lemma FinishRegistrations(s: State, c: Caller)
    requires c in s.regs && s.regs[c].Recovered?
    ensures GraceRegistrations(Next(s, Finish(c))) == GraceRegistrations(s) - {c}
    ensures c in GraceRegistrations(s) <==> s.regs[c].inGrace
  {
  }

  lemma FinishManagers(s: State, c: Caller)
    requires c in s.regs && s.regs[c].Recovered?
    ensures var r := s.regs[c];
            GraceManagers(Next(s, Finish(c))) ==
              GraceManagers(s) + (if Publishes(s.tables, r) && r.inGrace then {r.share} else {})
    ensures Publishes(s.tables, s.regs[c]) ==> s.regs[c].share !in GraceManagers(s)
  {
  }

  lemma FinishRegistrationsSize(s: State, c: Caller)
    requires c in s.regs && s.regs[c].Recovered?
    ensures |GraceRegistrations(Next(s, Finish(c)))| == |GraceRegistrations(s)| - (if s.regs[c].inGrace then 1 else 0)
  {
    FinishRegistrations(s, c);
    SetSizes(GraceRegistrations(s), c);
  }

  lemma FinishManagersSize(s: State, c: Caller)
    requires c in s.regs && s.regs[c].Recovered?
    ensures |GraceManagers(Next(s, Finish(c)))| ==
            |GraceManagers(s)| + (if Publishes(s.tables, s.regs[c]) && s.regs[c].inGrace then 1 else 0)
  {
    FinishManagers(s, c);
    SetSizes(GraceManagers(s), s.regs[c].share);
    assert GraceManagers(s) + {} == GraceManagers(s);
  }

  lemma FinishSizes(s: State, c: Caller)
    requires c in s.regs && s.regs[c].Recovered?
    ensures var t := Next(s, Finish(c));
            var r := s.regs[c];
            && |GraceRegistrations(t)| == |GraceRegistrations(s)| - (if r.inGrace then 1 else 0)
            && |GraceManagers(t)| == |GraceManagers(s)| + (if Publishes(s.tables, r) && r.inGrace then 1 else 0)
  {
    FinishRegistrationsSize(s, c);
    FinishManagersSize(s, c);
  }

  lemma FinishBalanced(s: State, c: Caller)
    requires Balanced(s) && c in s.regs && s.regs[c].Recovered?
    ensures Balanced(Next(s, Finish(c)))
  {
    FinishSizes(s, c);
  }

  lemma RemoveBalanced(s: State, share: Share)
    requires Balanced(s)
    ensures Balanced(Next(s, Remove(share)))
  {
    var t := Next(s, Remove(share));
    assert GraceRegistrations(t) == GraceRegistrations(s);
    assert GraceManagers(t) == GraceManagers(s) - {share};
    SetSizes(GraceManagers(s), share);
  }

  lemma ExpiryBalanced(s: State, share: Share)
    requires Balanced(s)
    ensures Balanced(Next(s, GraceExpires(share)))
  {
    var t := Next(s, GraceExpires(share));
    assert GraceRegistrations(t) == GraceRegistrations(s);
    assert GraceManagers(t) == GraceManagers(s) - {share};
    SetSizes(GraceManagers(s), share);
  }

  lemma UnpublishedExpiryBalanced(s: State, c: Caller)
    requires Balanced(s) && c in GraceRegistrations(s)
    ensures Balanced(Next(s, UnpublishedGraceExpires(c)))
  {
    var t := Next(s, UnpublishedGraceExpires(c));
    assert GraceManagers(t) == GraceManagers(s);
    assert GraceRegistrations(t) == GraceRegistrations(s) - {c};
    SetSizes(GraceRegistrations(s), c);
  }

  lemma StepBalanced(s: State, ev: Event)
    requires Balanced(s)
    ensures Balanced(Next(s, ev))
  {
    match ev
    case Register(c, share, store) =>
      var t := Next(s, ev);
      assert GraceManagers(t) == GraceManagers(s) && GraceRegistrations(t) == GraceRegistrations(s);
    case Recover(c, entersGrace) => if c in s.regs && s.regs[c].Recovering? { RecoverBalanced(s, c, entersGrace); }
    case Finish(c) => if c in s.regs && s.regs[c].Recovered? { FinishBalanced(s, c); }
    case Remove(share) => RemoveBalanced(s, share);
    case GraceExpires(share) => ExpiryBalanced(s, share);
    case UnpublishedGraceExpires(c) => if c in GraceRegistrations(s) { UnpublishedExpiryBalanced(s, c); }
  }

  // ---- a removal stops every registration begun before it ----

  /** Removals of a share so far. */
  function Removals(log: seq<Item>, share: Share): nat {
    if log == [] then 0
    else Removals(log[..|log| - 1], share) + if log[|log| - 1] == Removal(share) then 1 else 0
  }

  lemma {:induction false} RemovalsGrow(log: seq<Item>, i: nat, share: Share)
    requires i <= |log|
    ensures Removals(log[..i], share) <= Removals(log, share)
    ensures Removals(log[..i], share) == Removals(log, share) <==>
            forall m :: i <= m < |log| ==> log[m] != Removal(share)
  {
    if i == |log| {
      assert log[..i] == log;
    } else {
      var front := log[..|log| - 1];
      RemovalsGrow(front, i, share);
      assert front[..i] == log[..i];
      assert forall m :: i <= m < |front| ==> front[m] == log[m];
    }
  }

  lemma RemovalsAppend(log: seq<Item>, items: seq<Item>, share: Share)
    requires |items| <= 1
    ensures Removals(log + items, share) == Removals(log, share) + if items == [Removal(share)] then 1 else 0
  {
    if items == [] {
      assert log + items == log;
    } else {
      assert (log + items)[..|log|] == log;
    }
  }

  ghost predicate RegistrationCounted(log: seq<Item>, r: Registration) {
    r.began <= |log| && r.startGen == Removals(log[..r.began], r.share)
  }

  /** Generations count removals, and each registration remembers the count at
      its beginning. */
  ghost predicate Counted(s: State) {
    && (forall share :: Generation(s.tables, share) == Removals(s.log, share))
    && (forall c :: c in s.regs ==> RegistrationCounted(s.log, s.regs[c]))
  }

  /** Between the beginning of a published registration and its publication its
      share was never removed. */
  ghost predicate NeverStale(log: seq<Item>) {
    forall j :: 0 <= j < |log| && log[j].Published? ==>
      log[j].began <= j && forall m :: log[j].began <= m < j ==> log[m] != Removal(log[j].share)
  }

  lemma StepGeneration(s: State, ev: Event, share: Share)
    ensures Generation(Next(s, ev).tables, share) == Generation(s.tables, share) + if ev == Remove(share) then 1 else 0
  {
  }

  lemma StepRegistration(s: State, ev: Event, c: Caller)
    requires c in Next(s, ev).regs
    requires c in s.regs ==> RegistrationCounted(s.log, s.regs[c])
    requires ev.Register? ==> Generation(s.tables, ev.share) == Removals(s.log, ev.share)
    ensures RegistrationCounted(Next(s, ev).log, Next(s, ev).regs[c])
  {
    var r := Next(s, ev).regs[c];
    assert (s.log + Logged(s, ev))[..r.began] == s.log[..r.began];
    assert s.log[..|s.log|] == s.log;
  }

  lemma StepCounted(s: State, ev: Event)
    requires Counted(s)
    ensures Counted(Next(s, ev))
  {
    var t := Next(s, ev);
    forall share ensures Generation(t.tables, share) == Removals(t.log, share) {
      StepGeneration(s, ev, share);
      RemovalsAppend(s.log, Logged(s, ev), share);
    }
    forall c | c in t.regs ensures RegistrationCounted(t.log, t.regs[c]) {
      StepRegistration(s, ev, c);
    }
  }

  lemma StepNeverStale(s: State, ev: Event)
    requires Counted(s) && NeverStale(s.log)
    ensures NeverStale(Next(s, ev).log)
  {
    if ev.Finish? && ev.caller in s.regs {
      var r := s.regs[ev.caller];
      RemovalsGrow(s.log, r.began, r.share);
    }
  }

  // ---- the tables are what the history says ----

  /** The store of a share after its last publication, replacement or removal. */
  function Current(log: seq<Item>, share: Share): Option<nat> {
    if log == [] then None
    else
      var last := log[|log| - 1];
      if last.share != share || last.Began? then Current(log[..|log| - 1], share)
      else if last.Removal? then None
      else Some(last.store)
  }

  lemma CurrentAppend(log: seq<Item>, items: seq<Item>, share: Share)
    requires |items| <= 1
    ensures Current(log + items, share) ==
            if items == [] || items[0].share != share || items[0].Began? then Current(log, share)
            else if items[0].Removal? then None else Some(items[0].store)
  {
    if items == [] {
      assert log + items == log;
    } else {
      assert (log + items)[..|log|] == log;
    }
  }

  /** A share is registered, with a store, exactly as its history leaves it. */
  ghost predicate Recorded(s: State, share: Share) {
    Current(s.log, share) == if share in s.tables.stores then Some(s.tables.stores[share]) else None
  }

  lemma StepRecorded(s: State, ev: Event, share: Share)
    requires Recorded(s, share) && SameKeys(s.tables)
    ensures Recorded(Next(s, ev), share)
  {
    CurrentAppend(s.log, Logged(s, ev), share);
  }

  /** A share comes to be registered only by a registration that finishes, with the
      store it was called with and all tables at once. */
  lemma ShareAppears(s: State, ev: Event, share: Share)
    requires share !in s.tables.managers && share in Next(s, ev).tables.managers
    ensures ev.Finish? && ev.caller in s.regs && s.regs[ev.caller].share == share
    ensures Logged(s, ev) == [Published(share, s.regs[ev.caller].began, s.regs[ev.caller].store)]
    ensures var t := Next(s, ev).tables;
            && t.stores == s.tables.stores[share := s.regs[ev.caller].store]
            && t.cache == s.tables.cache[share := s.regs[ev.caller].store]
            && t.notifiers == s.tables.notifiers + {share}
  {
  }

  /** And only a removal takes it away, from every table. */
  lemma ShareDisappears(s: State, ev: Event, share: Share)
    ensures share in s.tables.managers && share !in Next(s, ev).tables.managers ==> ev == Remove(share)
    ensures ev == Remove(share) ==>
              var t := Next(s, ev).tables;
              share !in t.managers && share !in t.stores && share !in t.cache && share !in t.notifiers
  {
  }

  /** In any reachable state, a recovered registration that finishes publishes exactly
      when its share is not registered and was not removed since the registration
      began. */
  lemma FinishExactly(events: seq<Event>, c: Caller)
    requires var s := Run(EMPTY, events); c in s.regs && s.regs[c].Recovered?
    ensures var s := Run(EMPTY, events);
            var r := s.regs[c];
            var t := Next(s, Finish(c));
            && r.began <= |s.log| && c !in t.regs
            && ((r.share in t.tables.managers && r.share !in s.tables.managers) <==>
                (r.share !in s.tables.managers && forall m :: r.began <= m < |s.log| ==> s.log[m] != Removal(r.share)))
  {
    RegistryIsSound(events);
    var s := Run(EMPTY, events);
    assert RegistrationCounted(s.log, s.regs[c]);
    RemovalsGrow(s.log, s.regs[c].began, s.regs[c].share);
  }

  /** Over any run a share is registered exactly when its history since the last
      removal has a publication, none of which a removal outran. */
  lemma RegisteredExactly(events: seq<Event>, share: Share)
    ensures var s := Run(EMPTY, events);
            && (share in s.tables.managers <==> Current(s.log, share).Some?)
            && (share in s.tables.managers ==>
                  && share in s.tables.stores && Some(s.tables.stores[share]) == Current(s.log, share)
                  && share in s.tables.cache && Some(s.tables.cache[share]) == Current(s.log, share))
            && NeverStale(s.log)
  {
    RegistryIsSound(events);
    assert Recorded(Run(EMPTY, events), share);
  }

  /** A recovered manager ends its grace without being published: dropped for a winner
      it stays silent, removed meanwhile it signals. */
  predicate SignalsEnd(s: State, ev: Event) {
    match ev
    case Finish(c) =>
      && c in s.regs && s.regs[c].Recovered? && s.regs[c].inGrace
      && s.regs[c].share !in s.tables.managers && Generation(s.tables, s.regs[c].share) != s.regs[c].startGen
    case Remove(share) => share in s.tables.managers && s.tables.managers[share]
    case GraceExpires(share) => share in s.tables.managers && s.tables.managers[share]
    case UnpublishedGraceExpires(c) => c in s.regs && s.regs[c].Recovered? && s.regs[c].inGrace
    case _ => false
  }

  lemma SignalsExactly(s: State, ev: Event)
    ensures Next(s, ev).tables.ends == s.tables.ends + if SignalsEnd(s, ev) then 1 else 0
    ensures Next(s, ev).tables.starts == s.tables.starts +
              if ev.Recover? && ev.entersGrace && ev.caller in s.regs && s.regs[ev.caller].Recovering? then 1 else 0
  {
  }

  ghost predicate Inv(s: State) {
    && SameKeys(s.tables) && Balanced(s) && Counted(s) && NeverStale(s.log)
    && forall share :: Recorded(s, share)
  }

  lemma StepInv(s: State, ev: Event)
    requires Inv(s)
    ensures Inv(Next(s, ev))
  {
    StepSameKeys(s, ev);
    StepBalanced(s, ev);
    StepCounted(s, ev);
    StepNeverStale(s, ev);
    forall share ensures Recorded(Next(s, ev), share) {
      StepRecorded(s, ev, share);
    }
  }

  /** For every interleaving of registrations, removals and expiries: the tables
      have the same keys, no registration outlives a removal, and grace starts
      equal ends plus managers in grace plus losers dropped in grace. */
  lemma {:induction false} RunInv(s: State, events: seq<Event>)
    requires Inv(s)
    ensures Inv(Run(s, events))
    decreases |events|
  {
    if events != [] {
      StepInv(s, events[0]);
      RunInv(Next(s, events[0]), events[1..]);
    }
  }

  lemma RegistryIsSound(events: seq<Event>)
    ensures Inv(Run(EMPTY, events))
  {
    assert GraceManagers(EMPTY) == {} && GraceRegistrations(EMPTY) == {};
    RunInv(EMPTY, events);
  }

  /** When nothing is in grace any more, the coordinator has heard as many ends
      as starts exactly when no registration lost its race while in grace. */
  lemma CoordinatorReleased(events: seq<Event>)
    requires var s := Run(EMPTY, events); GraceManagers(s) == {} && GraceRegistrations(s) == {}
    ensures var t := Run(EMPTY, events).tables; t.starts == t.ends <==> t.dropped == 0
  {
    RegistryIsSound(events);
  }

  lemma Unfold(s: State, ev: Event, rest: seq<Event>)
    ensures Run(s, [ev] + rest) == Run(Next(s, ev), rest)
  {
    assert ([ev] + rest)[1..] == rest;
  }

  /** Two registrations of one share have recovered, the second into grace. */
  function Racing(share: Share): State {
    State(NO_SHARES.(starts := 1),
          map[0 := Recovered(share, 5, 0, 0, false), 1 := Recovered(share, 5, 0, 1, true)],
          [Began(0, share), Began(1, share)])
  }

  lemma RaceIsReached(share: Share)
    requires share != ""
    ensures Run(EMPTY, [Register(0, share, 5)] + ([Register(1, share, 5)]
                       + ([Recover(0, false)] + ([Recover(1, true)] + [])))) == Racing(share)
  {
    var e4 := [Recover(1, true)] + [];
    var e3 := [Recover(0, false)] + e4;
    var e2 := [Register(1, share, 5)] + e3;
    var s1 := Next(EMPTY, Register(0, share, 5));
    var s2 := Next(s1, Register(1, share, 5));
    var s3 := Next(s2, Recover(0, false));
    Unfold(EMPTY, Register(0, share, 5), e2);
    Unfold(s1, Register(1, share, 5), e3);
    Unfold(s2, Recover(0, false), e4);
    Unfold(s3, Recover(1, true), []);
    assert Next(s3, Recover(1, true)).regs == Racing(share).regs;
  }

  /** It can be left waiting: the registration that entered grace loses to the one
      that did not. */
  lemma CoordinatorCanWedge(share: Share)
    ensures var s := Next(Next(Racing(share), Finish(0)), Finish(1));
            && s.regs == map[] && s.tables.managers == map[share := false]
            && s.tables.starts == 1 && s.tables.ends == 0
  {
    var s := Next(Racing(share), Finish(0));
    assert s.regs == map[1 := Recovered(share, 5, 0, 1, true)];
    assert Next(s, Finish(1)).regs == map[];
  }
}
