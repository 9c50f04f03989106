/** Directory timestamps coalesced in memory: readers must see what writing every
    bump through to the row would show. */
module DirTimes {

  import opened Common

  datatype Times = Times(mtime: nat, ctime: nat, atime: nat)

  /** Not yet durable times of one directory, and when the flush timer started. */
  datatype Coalesced = Coalesced(times: Times, lastFlush: nat)

  const INTERVAL: nat := 2_000_000_000   // nanoseconds

  /** applyDirTimes: the later time wins, field by field. */
  function Overlay(a: Times, b: Times): Times {
    Times(Max(b.mtime, a.mtime), Max(b.ctime, a.ctime), Max(b.atime, a.atime))
  }

  function All(t: nat): Times { Times(t, t, t) }

  // ---- the tracker ----

  /** RecordBump on one directory; the zero time is below every bump. */
  function Bumped(p: Option<Coalesced>, t: nat): Coalesced {
    var dt := if p.Some? then p.value else Coalesced(All(0), t);
    if t > dt.times.mtime then dt.(times := All(t)) else dt
  }

  predicate FlushDue(dt: Coalesced, t: nat) {
    t >= dt.lastFlush + INTERVAL
  }

  /** ClearIfFlushed: a newer bump keeps the entry and restarts its timer. */
  function Cleared(p: Option<Coalesced>, flushedTo: nat): Option<Coalesced> {
    match p
    case None => None
    case Some(dt) => if dt.times.mtime <= flushedTo then None else Some(dt.(lastFlush := flushedTo))
  }

  class DirTimesTracker {
    var pending: map<string, Coalesced>

    constructor ()
      ensures pending == map[]
    {
      pending := map[];
    }

    ghost function At(h: string): Option<Coalesced>
      reads this
    {
      if h in pending then Some(pending[h]) else None
    }

    ghost predicate OnlyAt(before: map<string, Coalesced>, h: string)
      reads this
    {
      forall k :: k != h ==> (k in pending <==> k in before) && (k in before ==> pending[k] == before[k])
    }

    method RecordBump(h: string, t: nat) returns (flushDue: bool)
      modifies this
      ensures At(h) == Some(Bumped(old(At(h)), t)) && OnlyAt(old(pending), h)
      ensures flushDue <==> FlushDue(Bumped(old(At(h)), t), t)
    {
      var dt := Coalesced(All(0), t);
      if h in pending { dt := pending[h]; }
      if t > dt.times.mtime { dt := dt.(times := All(t)); }
      pending := pending[h := dt];
      flushDue := t >= dt.lastFlush + INTERVAL;
    }

    method Clear(h: string)
      modifies this
      ensures At(h) == None && OnlyAt(old(pending), h)
    {
      pending := pending - {h};
    }

    method ClearIfFlushed(h: string, flushedTo: nat)
      modifies this
      ensures At(h) == Cleared(old(At(h)), flushedTo) && OnlyAt(old(pending), h)
    {
      if h !in pending { return; }
      if pending[h].times.mtime <= flushedTo {
        pending := pending - {h};
      } else {
        pending := pending[h := pending[h].(lastFlush := flushedTo)];
      }
    }
  }

  // ---- one directory under any interleaving ----

  /** The flush holding the directory's flush lock, if any. */
  datatype Flush = Idle | Captured(times: Times) | Persisted(upTo: nat)

  datatype State = State(stored: Times, pending: Option<Coalesced>, flush: Flush)

  datatype Event =
    | Bump(t: nat)
    | BeginFlush
    | CommitFlush(succeeds: bool)
    | FinishFlush
    | SetTimes(mtime: Option<nat>, atime: Option<nat>, now: nat)

  /** What GETATTR, LOOKUP and READDIR report. */
  function Visible(s: State): Times {
    if s.pending.Some? then Overlay(s.stored, s.pending.value.times) else s.stored
  }

  /** An explicit set: given fields replace, ctime is now, the rest stays. */
  function WithSet(v: Times, mtime: Option<nat>, atime: Option<nat>, now: nat): Times {
    Times(if mtime.Some? then mtime.value else v.mtime, now, if atime.Some? then atime.value else v.atime)
  }

  /** Explicit sets wait for the flush lock; everything else never blocks. */
  predicate Blocked(s: State, ev: Event) {
    ev.SetTimes? && !s.flush.Idle?
  }

  function Next(s: State, ev: Event): State {
    match ev
    case Bump(t) => s.(pending := Some(Bumped(s.pending, t)))
    case BeginFlush =>
      if s.flush.Idle? && s.pending.Some? then s.(flush := Captured(s.pending.value.times)) else s
    case CommitFlush(succeeds) =>
      if !s.flush.Captured? then s
      else if succeeds then s.(stored := Overlay(s.stored, s.flush.times), flush := Persisted(s.flush.times.mtime))
      else s.(flush := Idle)
    case FinishFlush =>
      if s.flush.Persisted? then s.(pending := Cleared(s.pending, s.flush.upTo), flush := Idle) else s
    case SetTimes(mtime, atime, now) =>
      if Blocked(s, ev) then s
      else State(WithSet(Visible(s), mtime, atime, now), None, Idle)
  }

  /** Eager write-through: every bump goes straight to the row. */
  function Eager(v: Times, ev: Event): Times {
    match ev
    case Bump(t) => Overlay(v, All(t))
    case SetTimes(mtime, atime, now) => WithSet(v, mtime, atime, now)
    case _ => v
  }

  function Run(s: State, events: seq<Event>): State
    decreases |events|
  {
    if events == [] then s else Run(Next(s, events[0]), events[1..])
  }

  function RunEager(s: State, v: Times, events: seq<Event>): Times
    decreases |events|
  {
    if events == [] then v
    else RunEager(Next(s, events[0]), if Blocked(s, events[0]) then v else Eager(v, events[0]), events[1..])
  }

  predicate Below(a: Times, b: Times) {
    a.mtime <= b.mtime && a.ctime <= b.ctime && a.atime <= b.atime
  }

  /** Bumps move the three fields together, a captured time is already visible,
      and a persisted one is already stored. */
  predicate Inv(s: State) {
    && (s.pending.Some? ==> s.pending.value.times == All(s.pending.value.times.mtime))
    && (s.flush.Captured? ==> s.flush.times == All(s.flush.times.mtime) && Below(s.flush.times, Visible(s)))
    && (s.flush.Persisted? ==> Below(All(s.flush.upTo), s.stored))
  }

  lemma BumpVisible(s: State, t: nat)
    requires Inv(s)
    ensures Inv(Next(s, Bump(t))) && Visible(Next(s, Bump(t))) == Overlay(Visible(s), All(t))
  {
  }

  /** No step of a flush, failed or not, changes what readers see. */
  lemma FlushInvisible(s: State, ev: Event)
    requires Inv(s) && (ev.BeginFlush? || ev.CommitFlush? || ev.FinishFlush?)
    ensures Inv(Next(s, ev)) && Visible(Next(s, ev)) == Visible(s)
  {
  }

  lemma StepVisible(s: State, ev: Event)
    requires Inv(s)
    ensures Inv(Next(s, ev))
    ensures Visible(Next(s, ev)) == if Blocked(s, ev) then Visible(s) else Eager(Visible(s), ev)
  {
    match ev
    case Bump(t) => BumpVisible(s, t);
    case SetTimes(_, _, _) =>
    case _ => FlushInvisible(s, ev);
  }

  /** Under any interleaving of bumps, flushes, failed flushes and explicit sets,
      readers see what eager write-through would have stored. */
  lemma {:induction false} CoalescedIsEager(s: State, events: seq<Event>)
    requires Inv(s)
    ensures Inv(Run(s, events)) && Visible(Run(s, events)) == RunEager(s, Visible(s), events)
    decreases |events|
  {
    if events != [] {
      StepVisible(s, events[0]);
      CoalescedIsEager(Next(s, events[0]), events[1..]);
    }
  }

  // ---- consequences ----

  predicate OnlyBumpsAndFlushes(events: seq<Event>) {
    forall i :: 0 <= i < |events| ==> !events[i].SetTimes?
  }

  /** The latest bump of a run, or 0. */
  function LatestBump(events: seq<Event>): nat {
    if events == [] then 0
    else Max(if events[0].Bump? then events[0].t else 0, LatestBump(events[1..]))
  }

  lemma {:induction false} EagerIsMax(s: State, v: Times, events: seq<Event>)
    requires OnlyBumpsAndFlushes(events)
    ensures RunEager(s, v, events) == Overlay(v, All(LatestBump(events)))
    decreases |events|
  {
    if events != [] {
      EagerIsMax(Next(s, events[0]), Eager(v, events[0]), events[1..]);
    }
  }

  /** Each visible field is the latest of its starting value and all bumps,
      however many flushes ran, failed or are still running. */
  lemma VisibleIsLatestBump(start: Times, events: seq<Event>)
    requires OnlyBumpsAndFlushes(events)
    ensures Visible(Run(State(start, None, Idle), events)) == Overlay(start, All(LatestBump(events)))
  {
    CoalescedIsEager(State(start, None, Idle), events);
    EagerIsMax(State(start, None, Idle), start, events);
  }

  /** An explicit set is visible as set, through any flushes, until a bump. */
  lemma SetVisibleUntilBump(s: State, mtime: Option<nat>, atime: Option<nat>, now: nat, events: seq<Event>)
    requires Inv(s) && s.flush.Idle? && OnlyBumpsAndFlushes(events)
    ensures var v := WithSet(Visible(s), mtime, atime, now);
            Visible(Run(Next(s, SetTimes(mtime, atime, now)), events)) == Overlay(v, All(LatestBump(events)))
  {
    var t := Next(s, SetTimes(mtime, atime, now));
    StepVisible(s, SetTimes(mtime, atime, now));
    CoalescedIsEager(t, events);
    EagerIsMax(t, Visible(t), events);
  }

  /** No bump is later than the latest, and the latest is one of them. */
  lemma {:induction false} LatestBumpIs(events: seq<Event>)
    ensures forall i :: 0 <= i < |events| && events[i].Bump? ==> events[i].t <= LatestBump(events)
    ensures LatestBump(events) == 0 || exists i :: 0 <= i < |events| && events[i] == Bump(LatestBump(events))
  {
    if events != [] {
      LatestBumpIs(events[1..]);
      if LatestBump(events) == LatestBump(events[1..]) && LatestBump(events) != 0 {
        var i :| 0 <= i < |events[1..]| && events[1..][i] == Bump(LatestBump(events[1..]));
        assert events[i + 1] == Bump(LatestBump(events));
      }
    }
  }

  /** Field by field, the later of the start and the latest bump. */
  lemma VisibleFields(start: Times, events: seq<Event>)
    requires OnlyBumpsAndFlushes(events)
    ensures var v := Visible(Run(State(start, None, Idle), events));
            var latest := LatestBump(events);
            && v.mtime == (if latest > start.mtime then latest else start.mtime)
            && v.ctime == (if latest > start.ctime then latest else start.ctime)
            && v.atime == (if latest > start.atime then latest else start.atime)
  {
    VisibleIsLatestBump(start, events);
  }

  /** An explicit set, by what is visible before and after: ctime becomes now, a given
      field its value, and a field not given stays as readers saw it. */
  lemma SetFields(s: State, mtime: Option<nat>, atime: Option<nat>, now: nat)
    requires s.flush.Idle?
    ensures var v, w := Visible(s), Visible(Next(s, SetTimes(mtime, atime, now)));
            && w.ctime == now
            && (mtime.Some? ==> w.mtime == mtime.value) && (mtime.None? ==> w.mtime == v.mtime)
            && (atime.Some? ==> w.atime == atime.value) && (atime.None? ==> w.atime == v.atime)
  {
  }

  /** While a flush holds the lock, a set waits. */
  lemma SetWaits(s: State, mtime: Option<nat>, atime: Option<nat>, now: nat)
    requires !s.flush.Idle?
    ensures Next(s, SetTimes(mtime, atime, now)) == s
  {
  }

  /** An accepted flush with no bump in between stores what readers see and leaves no
      entry behind; a refused one changes nothing. */
  lemma FlushSettles(s: State)
    requires Inv(s) && s.flush.Idle? && s.pending.Some?
    ensures var t := Next(Next(Next(s, BeginFlush), CommitFlush(true)), FinishFlush);
            t == State(Visible(s), None, Idle)
    ensures Next(Next(s, BeginFlush), CommitFlush(false)) == s
  {
  }

  /** A bump during the flush stays pending, and the timer restarts at what the flush
      stored. */
  lemma BumpOutlivesFlush(s: State, t: nat)
    requires Inv(s) && s.flush.Idle? && s.pending.Some? && t > s.pending.value.times.mtime
    ensures var u := Next(Next(Next(Next(s, BeginFlush), Bump(t)), CommitFlush(true)), FinishFlush);
            u.stored == Visible(s) && u.pending == Some(Coalesced(Times(t, t, t), s.pending.value.times.mtime))
  {
  }

  /** A bump asks for a flush when two seconds have passed since the entry's timer
      started, and the bump that starts it does not. */
  lemma FlushDueExactly(p: Option<Coalesced>, t: nat)
    ensures FlushDue(Bumped(p, t), t) <==> p.Some? && t >= p.value.lastFlush + 2000000000
  {
  }

  // ---- a bump inside an explicit set ----

  /** An explicit set is two steps under the flush lock: the row is written, then the
      pending entry dropped.  Only bumps can come in between. */
  function StoreSet(s: State, mtime: Option<nat>, atime: Option<nat>, now: nat): State {
    s.(stored := WithSet(Visible(s), mtime, atime, now))
  }

  function ClearSet(s: State): State {
    s.(pending := None)
  }

  function Bumps(bumps: seq<nat>): seq<Event> {
    seq(|bumps|, i requires 0 <= i < |bumps| => Bump(bumps[i]))
  }

  lemma SetIsBothSteps(s: State, mtime: Option<nat>, atime: Option<nat>, now: nat)
    requires s.flush.Idle?
    ensures Next(s, SetTimes(mtime, atime, now)) == ClearSet(StoreSet(s, mtime, atime, now))
  {
  }

  lemma {:induction false} BumpsOnlyPend(s: State, bumps: seq<nat>)
    ensures var t := Run(s, Bumps(bumps)); t.stored == s.stored && t.flush == s.flush
    decreases |bumps|
  {
    if bumps != [] {
      assert Bumps(bumps)[1..] == Bumps(bumps[1..]);
      BumpsOnlyPend(Next(s, Bump(bumps[0])), bumps[1..]);
    }
  }

  /** The bumps recorded between the two steps are dropped: readers see the set alone,
      which is what writing the set and then the bumps through would show exactly when
      none of them is later than a time of the set. */
  lemma SetDropsBumps(s: State, mtime: Option<nat>, atime: Option<nat>, now: nat, bumps: seq<nat>)
    ensures var v := WithSet(Visible(s), mtime, atime, now);
            var t := ClearSet(Run(StoreSet(s, mtime, atime, now), Bumps(bumps)));
            Visible(t) == v && (Visible(t) == Overlay(v, All(LatestBump(Bumps(bumps)))) <==>
                                forall b :: b in bumps ==> Below(All(b), v))
  {
    BumpsOnlyPend(StoreSet(s, mtime, atime, now), bumps);
    LatestOfBumps(bumps, WithSet(Visible(s), mtime, atime, now));
  }

  lemma {:induction false} LatestOfBumps(bumps: seq<nat>, v: Times)
    ensures Below(All(LatestBump(Bumps(bumps))), v) <==> forall b :: b in bumps ==> Below(All(b), v)
    decreases |bumps|
  {
    if bumps != [] {
      assert Bumps(bumps)[1..] == Bumps(bumps[1..]);
      LatestOfBumps(bumps[1..], v);
      assert forall b :: b in bumps <==> b == bumps[0] || b in bumps[1..];
    }
  }

  /** For instance: times restored to 5, a bump to 9 between the steps, and 5 is
      what stays visible. */
  lemma BumpCanBeDropped(s: State)
    ensures Visible(ClearSet(Next(StoreSet(s, Some(5), Some(5), 6), Bump(9)))) == Times(5, 6, 5)
  {
  }

  // ---- how much a crash can lose ----

  /** A run with its history: `owed` counts the callers whose bump found a flush due
      and that have not begun it, `seen` is the bumps since the last explicit set. */
  datatype Ledger = Ledger(s: State, owed: nat, seen: set<nat>)

  function Record(l: Ledger, ev: Event): Ledger {
    var t := Next(l.s, ev);
    match ev
    case Bump(b) => Ledger(t, l.owed + (if FlushDue(t.pending.value, b) then 1 else 0), l.seen + {b})
    case BeginFlush => Ledger(t, if l.s.flush.Idle? && l.owed > 0 then l.owed - 1 else l.owed, l.seen)
    case SetTimes(_, _, _) => Ledger(t, l.owed, if Blocked(l.s, ev) then l.seen else {})
    case _ => l.(s := t)
  }

  function RunLedger(l: Ledger, events: seq<Event>): Ledger
    decreases |events|
  {
    if events == [] then l else RunLedger(Record(l, events[0]), events[1..])
  }

  /** The store accepts every flush. */
  predicate Accepted(events: seq<Event>) {
    forall i :: 0 <= i < |events| ==> events[i] != CommitFlush(false)
  }

  /** The pending time and timer are bumps seen, and the timer is not ahead of the
      time, nor of a time that a running flush carries. */
  predicate TimerOk(l: Ledger) {
    && (l.s.pending.Some? ==>
          var dt := l.s.pending.value;
          dt.lastFlush <= dt.times.mtime && dt.lastFlush in l.seen && dt.times.mtime in l.seen)
    && (l.s.flush.Captured? ==>
          l.s.pending.Some? && l.s.pending.value.lastFlush <= l.s.flush.times.mtime && l.s.flush.times.mtime in l.seen)
    && (l.s.flush.Persisted? ==>
          l.s.pending.Some? && l.s.pending.value.lastFlush <= l.s.flush.upTo && l.s.flush.upTo in l.seen)
  }

  /** A bump is stored, or pending and less than an interval after the timer's start,
      or on its way: in a flush that runs or that a caller owes. */
  predicate Accounted(l: Ledger, t: nat) {
    || Below(All(t), l.s.stored)
    || (l.s.pending.Some? && t <= l.s.pending.value.times.mtime &&
        (|| t < l.s.pending.value.lastFlush + INTERVAL
         || l.owed > 0
         || (l.s.flush.Captured? && t <= l.s.flush.times.mtime)))
  }

  ghost predicate LedgerInv(l: Ledger) {
    Inv(l.s) && TimerOk(l) && forall t :: t in l.seen ==> Accounted(l, t)
  }

  lemma RecordTimer(l: Ledger, ev: Event)
    requires Inv(l.s) && TimerOk(l) && ev != CommitFlush(false)
    ensures TimerOk(Record(l, ev))
  {
  }

  lemma RecordAccounts(l: Ledger, ev: Event, t: nat)
    requires Inv(l.s) && TimerOk(l) && ev != CommitFlush(false)
    requires t in l.seen ==> Accounted(l, t)
    requires t in Record(l, ev).seen
    ensures Accounted(Record(l, ev), t)
  {
  }

  lemma RecordInv(l: Ledger, ev: Event)
    requires LedgerInv(l) && ev != CommitFlush(false)
    ensures LedgerInv(Record(l, ev))
  {
    StepVisible(l.s, ev);
    RecordTimer(l, ev);
    forall t | t in Record(l, ev).seen ensures Accounted(Record(l, ev), t) {
      RecordAccounts(l, ev, t);
    }
  }

  lemma {:induction false} LossIsBounded(l: Ledger, events: seq<Event>)
    requires LedgerInv(l) && Accepted(events)
    ensures LedgerInv(RunLedger(l, events))
    decreases |events|
  {
    if events != [] {
      RecordInv(l, events[0]);
      LossIsBounded(Record(l, events[0]), events[1..]);
    }
  }

  /** Under any interleaving of bumps, explicit sets and accepted flushes, bumps that
      arrive during a flush included: whenever no flush runs or is owed, every bump
      since the last explicit set is stored, or lies less than an interval after some
      bump of the run, where the pending entry's timer stands. */
  lemma CrashLosesLessThanAnInterval(start: Times, events: seq<Event>, t: nat)
    requires Accepted(events)
    requires var l := RunLedger(Ledger(State(start, None, Idle), 0, {}), events);
             l.s.flush.Idle? && l.owed == 0 && t in l.seen
    ensures var l := RunLedger(Ledger(State(start, None, Idle), 0, {}), events);
            || Below(All(t), l.s.stored)
            || (&& l.s.pending.Some? && l.s.pending.value.lastFlush in l.seen
                && t < l.s.pending.value.lastFlush + INTERVAL)
  {
    var l := Ledger(State(start, None, Idle), 0, {});
    LossIsBounded(l, events);
    assert Accounted(RunLedger(l, events), t);
  }

  /** Bumps come in time order. */
  ghost predicate InOrder(l: Ledger, events: seq<Event>)
    decreases |events|
  {
    events != [] ==>
      && (events[0].Bump? ==> forall t :: t in l.seen ==> t <= events[0].t)
      && InOrder(Record(l, events[0]), events[1..])
  }

  /** What is not stored is not older than the timer's start. */
  ghost predicate NotOlder(l: Ledger) {
    forall t :: t in l.seen ==>
      Below(All(t), l.s.stored) || (l.s.pending.Some? && l.s.pending.value.lastFlush <= t)
  }

  lemma RecordNotOlder(l: Ledger, ev: Event)
    requires LedgerInv(l) && NotOlder(l) && ev != CommitFlush(false)
    requires ev.Bump? ==> forall t :: t in l.seen ==> t <= ev.t
    ensures NotOlder(Record(l, ev))
  {
    forall t | t in l.seen ensures Accounted(l, t) {
    }
  }

  lemma {:induction false} RunNotOlder(l: Ledger, events: seq<Event>)
    requires LedgerInv(l) && NotOlder(l) && Accepted(events) && InOrder(l, events)
    ensures NotOlder(RunLedger(l, events))
    decreases |events|
  {
    if events != [] {
      RecordNotOlder(l, events[0]);
      RecordInv(l, events[0]);
      RunNotOlder(Record(l, events[0]), events[1..]);
    }
  }

  /** With bumps in time order, the bumps a crash would lose then span less than one
      interval. */
  lemma LossSpan(start: Times, events: seq<Event>, t: nat, u: nat)
    requires Accepted(events) && InOrder(Ledger(State(start, None, Idle), 0, {}), events)
    requires var l := RunLedger(Ledger(State(start, None, Idle), 0, {}), events);
             && l.s.flush.Idle? && l.owed == 0 && t in l.seen && u in l.seen
             && !Below(All(t), l.s.stored) && !Below(All(u), l.s.stored)
    ensures var l := RunLedger(Ledger(State(start, None, Idle), 0, {}), events);
            && l.s.pending.Some? && l.s.pending.value.lastFlush <= t < l.s.pending.value.lastFlush + INTERVAL
            && t < u + INTERVAL
  {
    CrashLosesLessThanAnInterval(start, events, t);
    CrashLosesLessThanAnInterval(start, events, u);
    RunNotOlder(Ledger(State(start, None, Idle), 0, {}), events);
  }

  /** The ledger only adds history: its state is the run's. */
  lemma {:induction false} LedgerIsRun(l: Ledger, events: seq<Event>)
    ensures RunLedger(l, events).s == Run(l.s, events)
    decreases |events|
  {
    if events != [] {
      LedgerIsRun(Record(l, events[0]), events[1..]);
    }
  }
}
